/** The key schedule of the card cipher, stated on values: a masked, retry-limited draw for
    every position from 255 down, each followed by a swap. */
module KeySchedule {
  import opened Bits
  import opened CardCipher

  type UserKey = k: seq<byte> | |k| > 0 witness [0]

  /** The number of binary digits of i. */
  function BitLen(i: nat): nat {
    if i == 0 then 0 else 1 + BitLen(i / 2)
  }

  /** The smallest number of the form 2^k - 1 that is not below i. */
  function MaskOf(i: nat): nat {
    Pow2(BitLen(i)) - 1
  }

  lemma {:induction false} BitLenRange(i: nat)
    requires i >= 1
    ensures BitLen(i) >= 1 && Pow2(BitLen(i) - 1) <= i < Pow2(BitLen(i))
    decreases i
  {
    if i > 1 {
      BitLenRange(i / 2);
    }
  }

  lemma {:induction false} Pow2Monotone(a: nat, b: nat)
    requires a <= b
    ensures Pow2(a) <= Pow2(b)
    decreases b
  {
    if a < b {
      Pow2Monotone(a, b - 1);
    }
  }

  lemma BitLenUnique(i: nat, k: nat)
    requires k >= 1 && Pow2(k - 1) <= i < Pow2(k)
    ensures BitLen(i) == k
  {
    BitLenRange(i);
    var b := BitLen(i);
    if k < b {
      Pow2Monotone(k, b - 1);
    } else if b < k {
      Pow2Monotone(b, k - 1);
    }
  }

  /** The mask is the least 2^k - 1 that is not below i, so it only shrinks, by half, when i
      passes a power of two.  This is why the incrementally halved mask and the recomputed one
      are the same. */
  lemma MaskStep(i: nat)
    requires i >= 2
    ensures MaskOf(i - 1) == if And(i, i - 1) == 0 then MaskOf(i) / 2 else MaskOf(i)
  {
    AndPredecessor(i);
    BitLenRange(i);
    var k := BitLen(i);
    hide And, BitLen;
    if i == Pow2(k - 1) {
      assert IsPow2(i);
      BelowPowerOfTwo(i, k);
    } else {
      NotPowerOfTwo(i, k);
      BitLenUnique(i - 1, k);
    }
  }

  lemma BelowPowerOfTwo(i: nat, k: nat)
    requires k >= 1 && i == Pow2(k - 1) && i >= 2
    ensures BitLen(i - 1) == k - 1 && Pow2(k - 1) - 1 == (Pow2(k) - 1) / 2
  {
    BitLenUnique(i - 1, k - 1);
  }

  lemma NotPowerOfTwo(i: nat, k: nat)
    requires k >= 1 && Pow2(k - 1) < i < Pow2(k)
    ensures !IsPow2(i)
  {
    if e: nat :| i == Pow2(e) {
      if e < k {
        Pow2Monotone(e, k - 1);
      } else {
        Pow2Monotone(k, e);
      }
    }
  }

  /** The running sum and the position in the key. */
  datatype Cursor = Cursor(rsum: byte, keypos: nat)

  datatype Draw = Draw(u: nat, cursor: Cursor, tries: nat)

  /** Feed the next key byte into the running sum; wrapping around the key adds its length. */
  function Feed(cards: Deck, key: UserKey, c: Cursor): Cursor
    requires c.keypos < |key|
  {
    var r := AddByte(cards[c.rsum], key[c.keypos]);
    if c.keypos + 1 >= |key| then Cursor(AddByte(r, |key| % 256), 0)
    else Cursor(r, c.keypos + 1)
  }

  /** Draw a number up to limit: masked sums are rejected until one fits, and from the twelfth
      try on the remainder is taken, so a draw ends within twelve tries. */
  function DrawUpTo(cards: Deck, key: UserKey, c: Cursor, limit: nat, tries: nat): (d: Draw)
    requires c.keypos < |key| && 1 <= limit && tries < 12
    ensures d.u <= limit && d.tries <= 12 && d.cursor.keypos < |key|
    decreases 12 - tries
  {
    var n := Feed(cards, key, c);
    var masked := Mod(n.rsum, MaskOf(limit) + 1);
    var u := if tries + 1 > 11 then masked % limit else masked;
    if u > limit then DrawUpTo(cards, key, n, limit, tries + 1)
    else Draw(u, n, tries + 1)
  }

  datatype Sched = Sched(cards: Deck, cursor: Cursor)

  function Ascending(): Deck {
    seq(256, i requires 0 <= i < 256 => i)
  }

  /** The deck and cursor after drawing for positions 255, 254, ..., 256 - n. */
  function After(key: UserKey, n: nat): (s: Sched)
    requires n <= 255
    ensures s.cursor.keypos < |key|
  {
    if n == 0 then Sched(Ascending(), Cursor(0, 0))
    else
      var s := After(key, n - 1);
      var i: byte := 256 - n;
      var d := DrawUpTo(s.cards, key, s.cursor, i, 0);
      Sched(Swap(s.cards, i, d.u), d.cursor)
  }

  /** The state of the unkeyed hash set-up: the cards in reverse and five fixed indices. */
  function HashInitial(): State {
    State(seq(256, i requires 0 <= i < 256 => 255 - i), 1, 3, 5, 7, 11)
  }

  /** The state every keyed run starts from. */
  function Initial(key: UserKey): State {
    var s := After(key, |Ascending()| - 1);
    State(s.cards, s.cards[1], s.cards[3], s.cards[5], s.cards[7], s.cards[s.cursor.rsum])
  }

  /** The shuffled deck is a permutation, for every key. */
  lemma {:induction false} ScheduleIsPermutation(key: UserKey, n: nat)
    requires n <= 255
    ensures Distinct(After(key, n).cards)
    decreases n
  {
    if n > 0 {
      ScheduleIsPermutation(key, n - 1);
      var s := After(key, n - 1);
      var i: byte := 256 - n;
      SwapKeepsDistinct(s.cards, i, DrawUpTo(s.cards, key, s.cursor, i, 0).u);
    }
  }

  /** Every start state, keyed or not, has a permutation for cards. */
  lemma InitialIsPermutation(key: UserKey)
    ensures Distinct(Initial(key).cards) && Distinct(HashInitial().cards)
  {
    hide After;
    ScheduleIsPermutation(key, |Ascending()| - 1);
  }

  /** `mask & x` with the mask of a limit is a remainder. */
  lemma MaskIsRemainder(x: nat, limit: nat)
    ensures And(x, MaskOf(limit)) == Mod(x, MaskOf(limit) + 1)
    ensures And(MaskOf(limit), x) == Mod(x, MaskOf(limit) + 1)
  {
    AndMask(x, BitLen(limit));
    AndComm(x, MaskOf(limit));
  }

  /** One more try of a draw. */
  lemma DrawStep(cards: Deck, key: UserKey, c: Cursor, limit: nat, tries: nat)
    requires c.keypos < |key| && 1 <= limit && tries < 12
    ensures var n := Feed(cards, key, c);
            var masked := Mod(n.rsum, MaskOf(limit) + 1);
            var u := if tries + 1 > 11 then masked % limit else masked;
            && (u > limit ==> tries + 1 < 12)
            && (u > limit ==>
                  DrawUpTo(cards, key, c, limit, tries) == DrawUpTo(cards, key, n, limit, tries + 1))
            && (u <= limit ==> DrawUpTo(cards, key, c, limit, tries) == Draw(u, n, tries + 1))
  {
    hide Feed, Mod, MaskOf;
  }

  /** One more position of the schedule. */
  lemma AfterStep(key: UserKey, i: byte)
    requires i >= 1
    ensures var s := After(key, 255 - i);
            var d := DrawUpTo(s.cards, key, s.cursor, i, 0);
            After(key, 256 - i) == Sched(Swap(s.cards, i, d.u), d.cursor)
  {
    hide DrawUpTo;
  }

  lemma AfterNothing(key: UserKey)
    ensures After(key, 0) == Sched(Ascending(), Cursor(0, 0))
  {
  }

  lemma Mask255()
    ensures MaskOf(255) == 255
  {
    Pow2Values();
    assert Pow2(7) == 128;
    hide Pow2;
    BitLenUnique(255, 8);
  }

  // ---- values worked out by hand ----

  /** The cards of the unkeyed start state after one shuffle. */
  function OnceShuffled(): Deck {
    seq(256, i requires 0 <= i < 256 =>
      if i == 1 then 248 else if i == 2 then 244 else if i == 7 then 253 else if i == 11 then 254 else 255 - i)
  }

  lemma FirstShuffle()
    ensures Shuffle(HashInitial()) == State(OnceShuffled(), 2, 1, 16, 7, 11)
  {
    var s := HashInitial();
    assert AddByte(s.ratchet, s.cards[s.rotor]) == 1 && s.cards[11] == 244;
    assert Rotate(s.cards, 11, 1, 7, 2) == OnceShuffled();
  }

  /** The first byte 0 under the unkeyed start state is masked to 239. */
  lemma FirstByte()
    ensures EncryptByte(HashInitial(), 0) == (State(OnceShuffled(), 2, 1, 16, 0, 239), 239)
  {
    FirstShuffle();
    hide Shuffle, HashInitial, Xor;
    var d := State(OnceShuffled(), 2, 1, 16, 7, 11);
    assert Tap1(d) == 28 && Tap2(d) == 243;
    XorComm(0, 28);
    XorZero(28);
    XorOf28And243();
  }

  lemma XorDigit(a: nat, b: nat, c: nat)
    requires Xor(a / 2, b / 2) == c / 2 && (a + b) % 2 == c % 2
    ensures Xor(a, b) == c
  {
    XorHalves(a, b);
    XorParity(a, b);
    hide Xor;
    assert Xor(a, b) == Xor(a, b) % 2 + 2 * (Xor(a, b) / 2);
    assert c == c % 2 + 2 * (c / 2);
    assert (a % 2 + b % 2) % 2 == (a + b) % 2;
  }

  lemma XorOf28And243()
    ensures Xor(28, 243) == 239
  {
    XorZero(7);
    XorComm(0, 7);
    hide Xor;
    XorDigit(1, 15, 14);
    XorDigit(3, 30, 29);
    XorDigit(7, 60, 59);
    XorDigit(14, 121, 119);
    XorDigit(28, 243, 239);
  }

  /** Four different cards and the card at the last running sum are the indices every keyed run
      starts with. */
  lemma StartIndices(key: UserKey)
    ensures var s := Initial(key);
            && s.rotor == s.cards[1] && s.ratchet == s.cards[3] && s.avalanche == s.cards[5]
            && s.lastPlain == s.cards[7] && s.lastCipher == s.cards[After(key, |Ascending()| - 1).cursor.rsum]
            && s.rotor != s.ratchet && s.rotor != s.avalanche && s.rotor != s.lastPlain
            && s.ratchet != s.avalanche && s.ratchet != s.lastPlain && s.avalanche != s.lastPlain
  {
    hide After, Ascending;
    InitialIsPermutation(key);
    var c := Initial(key).cards;
    assert c[1] != c[3] && c[1] != c[5] && c[1] != c[7] && c[3] != c[5] && c[3] != c[7] && c[5] != c[7];
  }

  /** A key and the same key written twice part where the shorter one wraps around: its length is
      added to the running sum. */
  lemma WrittenTwice(cards: Deck, key: UserKey, c: Cursor)
    requires c.keypos < |key|
    ensures var once, twice := Feed(cards, key, c), Feed(cards, key + key, c);
            if c.keypos + 1 < |key| then once == twice
            else once.keypos == 0 && twice.keypos == |key| && (once.rsum - twice.rsum - |key|) % 256 == 0
  {
    assert (key + key)[c.keypos] == key[c.keypos];
    var r: int, n: int := AddByte(cards[c.rsum], key[c.keypos]), |key|;
    hide AddByte;
    if c.keypos + 1 == |key| {
      AddedLength(r, n);
    }
  }

  lemma AddedLength(r: byte, n: nat)
    ensures (AddByte(r, n % 256) - r - n) % 256 == 0
  {
    var s: int := r + n % 256;
    assert s % 256 - r - n == 256 * (-(s / 256) - n / 256);
  }

  /** The first two draws and swaps for the key with the one byte 1. */
  lemma FirstDraws()
    ensures After([1], 2).cards == Ascending()[255 := 2][2 := 255][254 := 1][1 := 254]
    ensures After([1], 2).cursor == Cursor(1, 0)
  {
    var key: UserKey := [1];
    Mask255();
    BitLenUnique254();
    var c := Ascending();
    AfterNothing(key);
    AfterStep(key, 255);
    AfterStep(key, 254);
    hide After, MaskOf, DrawUpTo;
    DrawStep(c, key, Cursor(0, 0), 255, 0);
    assert Feed(c, key, Cursor(0, 0)) == Cursor(2, 0);
    var d := Swap(c, 255, 2);
    DrawStep(d, key, Cursor(2, 0), 254, 0);
    assert Feed(d, key, Cursor(2, 0)) == Cursor(1, 0);
  }

  lemma BitLenUnique254()
    ensures MaskOf(254) == 255
  {
    Pow2Values();
    assert Pow2(7) == 128;
    hide Pow2;
    BitLenUnique(254, 8);
  }
}
