/** The cipher as the server keeps it: the struct with named fields, its byte routines and the
    block routines that hold the fields in locals. */
module CardState {
  import opened Bits
  import opened CardCipher
  import opened KeySchedule

  class GOACryptState {
    const cards: array<byte>
    var rotor: byte
    var ratchet: byte
    var avalanche: byte
    var lastPlain: byte
    var lastCipher: byte

    constructor ()
      ensures Valid() && fresh(cards)
    {
      cards := new byte[256];
      rotor, ratchet, avalanche, lastPlain, lastCipher := 0, 0, 0, 0, 0;
    }

    ghost predicate Valid() {
      cards.Length == 256
    }

    ghost function View(): State
      requires Valid()
      reads this, cards
    {
      State(cards[..], rotor, ratchet, avalanche, lastPlain, lastCipher)
    }

    /** The shuffle that opens every byte routine. */
    method Step()
      requires Valid()
      modifies this, cards
      ensures View() == Shuffle(old(View()))
    {
      ratchet := AddByte(ratchet, cards[rotor]);
      rotor := AddByte(rotor, 1);
      var swaptemp := cards[lastCipher];
      cards[lastCipher] := cards[ratchet];
      cards[ratchet] := cards[lastPlain];
      cards[lastPlain] := cards[rotor];
      cards[rotor] := swaptemp;
      avalanche := AddByte(avalanche, cards[swaptemp]);
    }

    method EncryptByte(b: byte) returns (c: byte)
      requires Valid()
      modifies this, cards
      ensures (View(), c) == CardCipher.EncryptByte(old(View()), b)
    {
      hide Shuffle, XorByte;
      Step();
      lastCipher := XorByte(XorByte(b, cards[AddByte(cards[avalanche], cards[rotor])]),
                            cards[cards[AddByte(AddByte(cards[lastPlain], cards[lastCipher]), cards[ratchet])]]);
      lastPlain := b;
      c := lastCipher;
    }

    method DecryptByte(c: byte) returns (b: byte)
      requires Valid()
      modifies this, cards
      ensures (View(), b) == CardCipher.DecryptByte(old(View()), c)
    {
      hide Shuffle, XorByte;
      Step();
      lastPlain := XorByte(XorByte(c, cards[AddByte(cards[avalanche], cards[rotor])]),
                           cards[cards[AddByte(AddByte(cards[lastPlain], cards[lastCipher]), cards[ratchet])]]);
      lastCipher := c;
      b := lastPlain;
    }

    /** One shuffle of the block loops, with the five fields in locals; swaptemp is returned
        because encryption reuses it for the card at the rotor. */
    method LocalStep(rotor0: byte, ratchet0: byte, avalanche0: byte, lastPlain: byte, lastCipher: byte)
      returns (rotor: byte, ratchet: byte, avalanche: byte, swaptemp: byte)
      requires Valid()
      modifies cards
      ensures State(cards[..], rotor, ratchet, avalanche, lastPlain, lastCipher)
           == Shuffle(State(old(cards[..]), rotor0, ratchet0, avalanche0, lastPlain, lastCipher))
      ensures swaptemp == cards[rotor]
    {
      ratchet := AddByte(ratchet0, cards[rotor0]);
      rotor := AddByte(rotor0, 1);
      swaptemp := cards[lastCipher];
      cards[lastCipher] := cards[ratchet];
      cards[ratchet] := cards[lastPlain];
      cards[lastPlain] := cards[rotor];
      cards[rotor] := swaptemp;
      avalanche := AddByte(avalanche0, cards[swaptemp]);
    }

    /** The block loop is the byte routine applied along the buffer. */
    method Encrypt(bp: array<byte>, len: nat)
      requires Valid() && len <= bp.Length && bp != cards
      modifies this, cards, bp
      ensures (View(), bp[..len]) == CardCipher.Encrypt(old(View()), old(bp[..len]))
      ensures bp[len..] == old(bp[len..])
    {
      hide XorByte, Shuffle, AddByte, CardCipher.Encrypt;
      var rotor, ratchet, avalanche := rotor, ratchet, avalanche;
      var lastPlain, lastCipher := lastPlain, lastCipher;
      ghost var s0, plain := View(), bp[..];
      ghost var s := s0;
      EncryptNothing(s0);
      for i := 0 to len
        invariant s == State(cards[..], rotor, ratchet, avalanche, lastPlain, lastCipher)
        invariant (s, bp[..i]) == CardCipher.Encrypt(s0, plain[..i])
        invariant bp[i..] == plain[i..]
      {
        var swaptemp;
        rotor, ratchet, avalanche, swaptemp := LocalStep(rotor, ratchet, avalanche, lastPlain, lastCipher);
        var b := bp[i];
        ghost var out := bp[..i];
        lastCipher := XorByte(XorByte(b, cards[AddByte(cards[avalanche], swaptemp)]),
                              cards[cards[AddByte(AddByte(cards[lastPlain], cards[lastCipher]), cards[ratchet])]]);
        lastPlain := b;
        bp[i] := lastCipher;
        assert (State(cards[..], rotor, ratchet, avalanche, lastPlain, lastCipher), lastCipher)
            == CardCipher.EncryptByte(s, b);
        EncryptStep(s0, plain[..i], b);
        assert plain[..i + 1] == plain[..i] + [b] && bp[..i + 1] == out + [lastCipher];
        s := CardCipher.EncryptByte(s, b).0;
      }
      this.rotor, this.ratchet, this.avalanche := rotor, ratchet, avalanche;
      this.lastPlain, this.lastCipher := lastPlain, lastCipher;
      assert plain[..len] == old(bp[..len]);
    }

    method Decrypt(bp: array<byte>, len: nat)
      requires Valid() && len <= bp.Length && bp != cards
      modifies this, cards, bp
      ensures (View(), bp[..len]) == CardCipher.Decrypt(old(View()), old(bp[..len]))
      ensures bp[len..] == old(bp[len..])
    {
      hide XorByte, Shuffle, AddByte, CardCipher.Decrypt;
      var rotor, ratchet, avalanche := rotor, ratchet, avalanche;
      var lastPlain, lastCipher := lastPlain, lastCipher;
      ghost var s0, coded := View(), bp[..];
      ghost var s := s0;
      DecryptNothing(s0);
      for i := 0 to len
        invariant s == State(cards[..], rotor, ratchet, avalanche, lastPlain, lastCipher)
        invariant (s, bp[..i]) == CardCipher.Decrypt(s0, coded[..i])
        invariant bp[i..] == coded[i..]
      {
        var swaptemp;
        rotor, ratchet, avalanche, swaptemp := LocalStep(rotor, ratchet, avalanche, lastPlain, lastCipher);
        var b := bp[i];
        ghost var out := bp[..i];
        lastPlain := XorByte(XorByte(b, cards[AddByte(cards[avalanche], cards[rotor])]),
                             cards[cards[AddByte(AddByte(cards[lastPlain], cards[lastCipher]), cards[ratchet])]]);
        lastCipher := b;
        bp[i] := lastPlain;
        assert (State(cards[..], rotor, ratchet, avalanche, lastPlain, lastCipher), lastPlain)
            == CardCipher.DecryptByte(s, b);
        DecryptStep(s0, coded[..i], b);
        assert coded[..i + 1] == coded[..i] + [b] && bp[..i + 1] == out + [lastPlain];
        s := CardCipher.DecryptByte(s, b).0;
      }
      this.rotor, this.ratchet, this.avalanche := rotor, ratchet, avalanche;
      this.lastPlain, this.lastCipher := lastPlain, lastCipher;
      assert coded[..len] == old(bp[..len]);
    }

    /** A masked draw from the key, with the mask handed in by the caller. */
    method Keyrand(limit: nat, mask: nat, key: UserKey, rsum0: byte, keypos0: nat)
      returns (u: nat, rsum: byte, keypos: nat)
      requires Valid() && keypos0 < |key| <= 255
      requires limit >= 1 ==> mask == MaskOf(limit)
      ensures limit == 0 ==> u == 0 && rsum == rsum0 && keypos == keypos0
      ensures limit >= 1 ==>
                var d := DrawUpTo(cards[..], key, Cursor(rsum0, keypos0), limit, 0);
                u == d.u && Cursor(rsum, keypos) == d.cursor
    {
      hide DrawUpTo, MaskOf, And, Mod, AddByte;
      rsum, keypos := rsum0, keypos0;
      if limit == 0 {
        return 0, rsum, keypos;
      }
      var retryLimiter := 0;
      u := limit + 1;
      while u > limit
        invariant keypos < |key|
        invariant u > limit ==> retryLimiter < 12
        invariant u > limit ==>
                    DrawUpTo(cards[..], key, Cursor(rsum, keypos), limit, retryLimiter)
                    == DrawUpTo(cards[..], key, Cursor(rsum0, keypos0), limit, 0)
        invariant u <= limit ==>
                    Draw(u, Cursor(rsum, keypos), retryLimiter)
                    == DrawUpTo(cards[..], key, Cursor(rsum0, keypos0), limit, 0)
        decreases 12 - retryLimiter
      {
        DrawStep(cards[..], key, Cursor(rsum, keypos), limit, retryLimiter);
        rsum := AddByte(cards[rsum], key[keypos]);
        keypos := keypos + 1;
        if keypos >= |key| {
          keypos := 0;
          rsum := AddByte(rsum, |key|);
        }
        MaskIsRemainder(rsum, limit);
        u := And(mask, rsum);
        retryLimiter := retryLimiter + 1;
        if retryLimiter > 11 {
          u := u % limit;
        }
      }
    }

    method HashInit()
      requires Valid()
      modifies this, cards
      ensures View() == HashInitial()
    {
      rotor, ratchet, avalanche, lastPlain, lastCipher := 1, 3, 5, 7, 11;
      var j: int := 255;
      for i := 0 to 256
        invariant j == 255 - i
        invariant forall k :: 0 <= k < i ==> cards[k] == 255 - k
        invariant rotor == 1 && ratchet == 3 && avalanche == 5 && lastPlain == 7 && lastCipher == 11
      {
        cards[i] := j;
        j := j - 1;
      }
    }

    method SortCards()
      requires Valid()
      modifies cards
      ensures cards[..] == Ascending()
    {
      for i := 0 to 256
        invariant forall k :: 0 <= k < i ==> cards[k] == k
      {
        cards[i] := i;
      }
    }

    /** Swap the card at each position with a card drawn from the key. */
    method Deal(key: UserKey) returns (rsum: byte)
      requires Valid() && |key| <= 255 && cards[..] == Ascending()
      modifies cards
      ensures cards[..] == After(key, |Ascending()| - 1).cards
      ensures rsum == After(key, |Ascending()| - 1).cursor.rsum
    {
      hide After, DrawUpTo, MaskOf, And, Pow2, BitLen;
      var keypos: nat, mask: nat := 0, 255;
      rsum := 0;
      var i: byte := 255;
      Mask255();
      AfterNothing(key);
      while i > 0
        invariant keypos < |key|
        invariant Sched(cards[..], Cursor(rsum, keypos)) == After(key, 255 - i)
        invariant i > 0 ==> mask == MaskOf(i)
        decreases i
      {
        AfterStep(key, i);
        var toswap;
        toswap, rsum, keypos := Keyrand(i, mask, key, rsum, keypos);
        var swaptemp := cards[i];
        cards[i] := cards[toswap];
        cards[toswap] := swaptemp;
        if i >= 2 {
          MaskStep(i);
        }
        if And(i, i - 1) == 0 {
          mask := mask / 2;
        }
        i := i - 1;
      }
    }

    /** Key the cipher; a key of no bytes gives the unkeyed hash set-up. */
    method CryptInit(key: seq<byte>)
      requires Valid() && |key| <= 255
      modifies this, cards
      ensures View() == if |key| < 1 then HashInitial() else Initial(key)
    {
      hide After;
      if |key| < 1 {
        HashInit();
        return;
      }
      SortCards();
      var rsum := Deal(key);
      rotor := cards[1];
      ratchet := cards[3];
      avalanche := cards[5];
      lastPlain := cards[7];
      lastCipher := cards[rsum];
    }
  }
}
