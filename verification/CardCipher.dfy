/** The card-shuffling stream cipher, stated on values: one step of the deck, the byte it
    yields, and what encryption and decryption do to a whole message. */
module CardCipher {
  import opened Bits

  type Deck = s: seq<byte> | |s| == 256 witness seq(256, _ => 0)

  datatype State = State(cards: Deck, rotor: byte, ratchet: byte, avalanche: byte,
                         lastPlain: byte, lastCipher: byte)

  function AddByte(a: byte, b: byte): byte {
    var s: int := a + b;
    s % 256
  }

  /** The five assignments that rotate four cards through a temporary. */
  function Rotate(c: Deck, lc: byte, ra: byte, lp: byte, ro: byte): Deck {
    var t := c[lc];
    var c1: Deck := c[lc := c[ra]];
    var c2: Deck := c1[ra := c1[lp]];
    var c3: Deck := c2[lp := c2[ro]];
    c3[ro := t]
  }

  function Swap(c: Deck, i: byte, j: byte): Deck {
    c[i := c[j]][j := c[i]]
  }

  /** The rotation is three swaps, whichever of the four indices coincide. */
  lemma RotateIsThreeSwaps(c: Deck, lc: byte, ra: byte, lp: byte, ro: byte)
    ensures Rotate(c, lc, ra, lp, ro) == Swap(Swap(Swap(c, lc, ra), ra, lp), lp, ro)
  {
  }

  /** No card value occurs twice: with 256 cards below 256, a permutation. */
  ghost predicate Distinct(c: Deck) {
    forall i, j :: 0 <= i < j < 256 ==> c[i] != c[j]
  }

  /** Distinct cards are a permutation of 0..255: every byte value is on some card. */
  lemma DistinctIsPermutation(c: Deck, v: byte)
    requires Distinct(c)
    ensures exists i :: 0 <= i < 256 && c[i] == v
  {
    var n := |c|;
    var seen, all := Values(c, n), Below(n);
    DistinctCount(c, n);
    if v !in seen {
      SubsetCount(seen, all - {v});
      assert false;
    }
  }

  ghost function Below(n: nat): (s: set<int>)
    ensures forall x :: x in s <==> 0 <= x < n
    ensures |s| == n
  {
    if n == 0 then {} else Below(n - 1) + {n - 1}
  }

  ghost function Values(c: Deck, n: nat): (s: set<int>)
    requires n <= |c|
    ensures forall x :: x in s <==> exists i :: 0 <= i < n && c[i] == x
  {
    if n == 0 then {} else Values(c, n - 1) + {c[n - 1]}
  }

  lemma {:induction false} DistinctCount(c: Deck, n: nat)
    requires Distinct(c) && n <= |c|
    ensures |Values(c, n)| == n
    decreases n
  {
    if n > 0 {
      DistinctCount(c, n - 1);
      assert c[n - 1] !in Values(c, n - 1);
    }
  }

  lemma SubsetCount(a: set<int>, b: set<int>)
    requires a <= b
    ensures |a| <= |b|
  {
    assert b == a + (b - a);
  }

  lemma SwapKeepsDistinct(c: Deck, i: byte, j: byte)
    requires Distinct(c)
    ensures Distinct(Swap(c, i, j))
  {
  }

  lemma RotateKeepsDistinct(c: Deck, lc: byte, ra: byte, lp: byte, ro: byte)
    requires Distinct(c)
    ensures Distinct(Rotate(c, lc, ra, lp, ro))
  {
    RotateIsThreeSwaps(c, lc, ra, lp, ro);
    SwapKeepsDistinct(c, lc, ra);
    SwapKeepsDistinct(Swap(c, lc, ra), ra, lp);
    SwapKeepsDistinct(Swap(Swap(c, lc, ra), ra, lp), lp, ro);
  }

  /** Shuffle the deck a little more.  Nothing here depends on the byte being coded. */
  function Shuffle(s: State): State {
    var ratchet := AddByte(s.ratchet, s.cards[s.rotor]);
    var rotor := AddByte(s.rotor, 1);
    var t := s.cards[s.lastCipher];
    var cards := Rotate(s.cards, s.lastCipher, ratchet, s.lastPlain, rotor);
    s.(cards := cards, rotor := rotor, ratchet := ratchet,
       avalanche := AddByte(s.avalanche, cards[t]))
  }

  function Tap1(s: State): byte {
    s.cards[AddByte(s.cards[s.avalanche], s.cards[s.rotor])]
  }

  function Tap2(s: State): byte {
    s.cards[s.cards[AddByte(AddByte(s.cards[s.lastPlain], s.cards[s.lastCipher]), s.cards[s.ratchet])]]
  }

  /** A byte masked by the shuffled deck. */
  function Cover(s: State, b: byte): byte {
    XorByte(XorByte(b, Tap1(s)), Tap2(s))
  }

  function EncryptByte(s: State, b: byte): (State, byte) {
    var d := Shuffle(s);
    var c := Cover(d, b);
    (d.(lastPlain := b, lastCipher := c), c)
  }

  function DecryptByte(s: State, c: byte): (State, byte) {
    var d := Shuffle(s);
    var b := Cover(d, c);
    (d.(lastPlain := b, lastCipher := c), b)
  }

  lemma CoverTwice(s: State, b: byte)
    ensures Cover(s, Cover(s, b)) == b
  {
    var p, q := Tap1(s), Tap2(s);
    hide Tap1, Tap2, Xor;
    XorAssoc(b, p, q);
    XorAssoc(Cover(s, b), p, q);
    XorCancels(b, Xor(p, q));
  }

  /** From equal states decryption gives the plain byte back and leaves the state encryption
      left. */
  lemma ByteRoundTrip(s: State, b: byte)
    ensures DecryptByte(s, EncryptByte(s, b).1) == (EncryptByte(s, b).0, b)
  {
    hide Shuffle, Cover;
    CoverTwice(Shuffle(s), b);
  }

  /** Coding a whole message: the final state and the output. */
  function Encrypt(s: State, bs: seq<byte>): (State, seq<byte>) {
    if bs == [] then (s, [])
    else
      var (t, cs) := Encrypt(s, bs[..|bs| - 1]);
      var (u, c) := EncryptByte(t, bs[|bs| - 1]);
      (u, cs + [c])
  }

  function Decrypt(s: State, cs: seq<byte>): (State, seq<byte>) {
    if cs == [] then (s, [])
    else
      var (t, bs) := Decrypt(s, cs[..|cs| - 1]);
      var (u, b) := DecryptByte(t, cs[|cs| - 1]);
      (u, bs + [b])
  }

  lemma EncryptNothing(s: State)
    ensures Encrypt(s, []) == (s, [])
  {
  }

  lemma DecryptNothing(s: State)
    ensures Decrypt(s, []) == (s, [])
  {
  }

  lemma EncryptStep(s: State, bs: seq<byte>, b: byte)
    ensures var (t, cs) := Encrypt(s, bs);
            var (u, c) := EncryptByte(t, b);
            Encrypt(s, bs + [b]) == (u, cs + [c])
  {
    assert (bs + [b])[..|bs + [b]| - 1] == bs;
  }

  lemma DecryptStep(s: State, cs: seq<byte>, c: byte)
    ensures var (t, bs) := Decrypt(s, cs);
            var (u, b) := DecryptByte(t, c);
            Decrypt(s, cs + [c]) == (u, bs + [b])
  {
    assert (cs + [c])[..|cs + [c]| - 1] == cs;
  }

  /** Decryption undoes encryption on every message, and both ends stay in step. */
  lemma {:induction false} RoundTrip(s: State, bs: seq<byte>)
    ensures Decrypt(s, Encrypt(s, bs).1) == (Encrypt(s, bs).0, bs)
    decreases |bs|
  {
    hide EncryptByte, DecryptByte;
    if bs != [] {
      var init, last := bs[..|bs| - 1], bs[|bs| - 1];
      var (t, cs) := Encrypt(s, init);
      RoundTrip(s, init);
      ByteRoundTrip(t, last);
      var all := Encrypt(s, bs).1;
      assert all == cs + [EncryptByte(t, last).1];
      assert all[..|all| - 1] == cs;
      assert bs == init + [last];
    }
  }

  /** Splitting a message changes nothing. */
  lemma {:induction false} EncryptSplit(s: State, a: seq<byte>, b: seq<byte>)
    ensures var (t, x) := Encrypt(s, a); var (u, y) := Encrypt(t, b);
            Encrypt(s, a + b) == (u, x + y)
    decreases |b|
  {
    hide EncryptByte;
    var (t, x) := Encrypt(s, a);
    if b == [] {
      assert a + b == a && x + [] == x;
    } else {
      var init, last := b[..|b| - 1], b[|b| - 1];
      EncryptSplit(s, a, init);
      assert (a + b)[..|a + b| - 1] == a + init;
      var (u, y) := Encrypt(t, init);
      var z := EncryptByte(u, last).1;
      assert x + y + [z] == x + (y + [z]);
    }
  }

  lemma {:induction false} DecryptSplit(s: State, a: seq<byte>, b: seq<byte>)
    ensures var (t, x) := Decrypt(s, a); var (u, y) := Decrypt(t, b);
            Decrypt(s, a + b) == (u, x + y)
    decreases |b|
  {
    hide DecryptByte;
    var (t, x) := Decrypt(s, a);
    if b == [] {
      assert a + b == a && x + [] == x;
    } else {
      var init, last := b[..|b| - 1], b[|b| - 1];
      DecryptSplit(s, a, init);
      assert (a + b)[..|a + b| - 1] == a + init;
      var (u, y) := Decrypt(t, init);
      var z := DecryptByte(u, last).1;
      assert x + y + [z] == x + (y + [z]);
    }
  }

  lemma ShuffleKeepsDistinct(s: State)
    requires Distinct(s.cards)
    ensures Distinct(Shuffle(s).cards)
  {
    var ratchet, rotor := AddByte(s.ratchet, s.cards[s.rotor]), AddByte(s.rotor, 1);
    RotateKeepsDistinct(s.cards, s.lastCipher, ratchet, s.lastPlain, rotor);
  }

  /** The cards stay a permutation over every run, in both directions. */
  lemma {:induction false} StaysPermutation(s: State, bs: seq<byte>)
    requires Distinct(s.cards)
    ensures Distinct(Encrypt(s, bs).0.cards) && Distinct(Decrypt(s, bs).0.cards)
    decreases |bs|
  {
    hide Shuffle, Cover;
    if bs != [] {
      var init := bs[..|bs| - 1];
      StaysPermutation(s, init);
      ShuffleKeepsDistinct(Encrypt(s, init).0);
      ShuffleKeepsDistinct(Decrypt(s, init).0);
    }
  }

  // ---- what the mask does ----

  lemma XorSame(a: byte, b: byte)
    ensures Xor(a, b) == 0 <==> a == b
  {
    XorSelf(a);
    XorCancels(a, b);
    XorComm(0, b);
    XorZero(b);
  }

  lemma XorUnchanged(b: byte, p: byte, q: byte)
    ensures XorByte(XorByte(b, p), q) == b <==> p == q
  {
    XorAssoc(b, p, q);
    XorComm(b, Xor(p, q));
    XorCancels(Xor(p, q), b);
    XorSelf(b);
    XorComm(0, b);
    XorZero(b);
    XorSame(p, q);
    hide Xor;
  }

  /** The last eight bits of a sum. */
  function SumByte(x: nat, y: nat, z: nat): byte {
    (x + y + z) % 256
  }

  /** A byte goes out as it came in exactly when two sums of cards agree: the mask is nothing else
      but those two cards. */
  lemma PassesUnmasked(s: State, b: byte)
    requires Distinct(s.cards)
    ensures var d := Shuffle(s);
            var k := SumByte(d.cards[d.lastPlain], d.cards[d.lastCipher], d.cards[d.ratchet]);
            EncryptByte(s, b).1 == b <==> SumByte(d.cards[d.avalanche], d.cards[d.rotor], 0) == d.cards[k]
  {
    var d := Shuffle(s);
    ShuffleKeepsDistinct(s);
    hide Shuffle, Xor;
    XorUnchanged(b, Tap1(d), Tap2(d));
    TapsAre(d);
    hide SumByte;
    SameCard(d.cards, SumByte(d.cards[d.avalanche], d.cards[d.rotor], 0),
             d.cards[SumByte(d.cards[d.lastPlain], d.cards[d.lastCipher], d.cards[d.ratchet])]);
  }

  lemma TapsAre(d: State)
    ensures Tap1(d) == d.cards[SumByte(d.cards[d.avalanche], d.cards[d.rotor], 0)]
    ensures Tap2(d) == d.cards[d.cards[SumByte(d.cards[d.lastPlain], d.cards[d.lastCipher], d.cards[d.ratchet])]]
  {
    AddTwice(d.cards[d.lastPlain], d.cards[d.lastCipher], d.cards[d.ratchet]);
  }

  lemma AddTwice(x: byte, y: byte, z: byte)
    ensures AddByte(AddByte(x, y), z) == SumByte(x, y, z)
  {
    var p: nat, q: nat, r: nat := x, y, z;
    SameLowByte(p + q + r, (p + q) / 256, (p + q) % 256 + r);
  }

  lemma SameCard(c: Deck, i: byte, j: byte)
    requires Distinct(c)
    ensures c[i] == c[j] <==> i == j
  {
  }

  /** Two bytes from one state: their masked forms differ exactly where they do. */
  lemma DifferenceKept(s: State, a: byte, b: byte)
    ensures XorByte(EncryptByte(s, a).1, EncryptByte(s, b).1) == XorByte(a, b)
  {
    var d := Shuffle(s);
    hide Shuffle, Xor, Tap1, Tap2;
    var p, q := Tap1(d), Tap2(d);
    var m := Xor(p, q);
    XorAssoc(a, p, q);
    XorAssoc(b, p, q);
    XorComm(b, m);
    XorAssoc(Xor(a, m), m, b);
    XorCancels(a, m);
  }
}
