/** The same cipher as a register machine: cards and fields in one array of 261 bytes, worked
    on through three byte registers a, b and c. */
module RegisterCipher {
  import opened Bits
  import opened CardCipher
  import opened CardState
  import opened KeySchedule

  const KEY_SIZE: nat := 261

  /** Slots 256..260 are rotor, ratchet, avalanche, last plain byte and last cipher byte. */
  ghost function RegView(k: seq<byte>): State
    requires |k| >= KEY_SIZE
  {
    State(k[..256], k[256], k[257], k[258], k[259], k[260])
  }

  /** The first half of both routines, through the update of slot 258. */
  method RegShuffle(enc1key: array<byte>) returns (a: byte, c: byte)
    requires enc1key.Length >= KEY_SIZE
    modifies enc1key
    ensures RegView(enc1key[..]) == Shuffle(RegView(old(enc1key[..])))
    ensures a == enc1key[258] && c == enc1key[259]
    ensures enc1key[KEY_SIZE..] == old(enc1key[KEY_SIZE..])
  {
    hide AddByte;
    ghost var s := RegView(enc1key[..]);
    a := enc1key[256];
    var b := enc1key[257];
    c := enc1key[a];
    enc1key[256] := AddByte(a, 1);
    enc1key[257] := AddByte(b, c);
    a := enc1key[260];
    b := enc1key[257];
    b := enc1key[b];
    c := enc1key[a];
    enc1key[a] := b;
    a := enc1key[259];
    b := enc1key[257];
    a := enc1key[a];
    enc1key[b] := a;
    a := enc1key[256];
    b := enc1key[259];
    a := enc1key[a];
    enc1key[b] := a;
    a := enc1key[256];
    enc1key[a] := c;
    assert enc1key[..256] == Shuffle(s).cards;
    b := enc1key[258];
    a := enc1key[c];
    c := enc1key[259];
    b := AddByte(b, a);
    enc1key[258] := b;
    a := b;
  }

  /** The second half up to the two card bytes that are exclusive-ored together. */
  method RegTaps(enc1key: array<byte>, a0: byte, c0: byte) returns (a: byte, b: byte, c: byte)
    requires enc1key.Length >= KEY_SIZE
    requires a0 == enc1key[258] && c0 == enc1key[259]
    ensures b == Tap1(RegView(enc1key[..])) && c == Tap2(RegView(enc1key[..]))
  {
    hide AddByte;
    ghost var k: Deck := enc1key[..256];
    AddByteSwap(k[c0], k[enc1key[257]], k[enc1key[260]]);
    a, c := a0, c0;
    c := enc1key[c];
    b := enc1key[257];
    b := enc1key[b];
    a := enc1key[a];
    c := AddByte(c, b);
    b := enc1key[260];
    b := enc1key[b];
    c := AddByte(c, b);
    b := enc1key[c];
    c := enc1key[256];
    c := enc1key[c];
    a := AddByte(a, c);
    c := enc1key[b];
    b := enc1key[a];
  }

  lemma AddByteSwap(x: byte, y: byte, z: byte)
    ensures AddByte(AddByte(x, y), z) == AddByte(AddByte(x, z), y)
  {
  }

  lemma CoverAnyOrder(v: byte, p: byte, q: byte)
    ensures XorByte(XorByte(q, p), v) == XorByte(XorByte(v, p), q)
  {
    XorComm(XorByte(q, p), v);
    XorComm(q, p);
    XorAssoc(v, p, q);
  }

  /** enctype1_func7e is the encryption of one byte. */
  method Func7e(v: byte, enc1key: array<byte>) returns (c: byte)
    requires enc1key.Length >= KEY_SIZE
    modifies enc1key
    ensures (RegView(enc1key[..]), c) == EncryptByte(RegView(old(enc1key[..])), v)
    ensures enc1key[KEY_SIZE..] == old(enc1key[KEY_SIZE..])
  {
    hide Shuffle, Tap1, Tap2, Xor;
    var a, b;
    a, c := RegShuffle(enc1key);
    ghost var d := enc1key[..];
    a, b, c := RegTaps(enc1key, a, c);
    CoverAnyOrder(v, b, c);
    c := XorByte(c, b);
    c := XorByte(c, v);
    enc1key[260] := c;
    enc1key[259] := v;
    assert enc1key[..256] == d[..256];
  }

  /** enctype1_func7 is the decryption of one byte. */
  method Func7(len: byte, enc1key: array<byte>) returns (c: byte)
    requires enc1key.Length >= KEY_SIZE
    modifies enc1key
    ensures (RegView(enc1key[..]), c) == DecryptByte(RegView(old(enc1key[..])), len)
    ensures enc1key[KEY_SIZE..] == old(enc1key[KEY_SIZE..])
  {
    hide Shuffle, Tap1, Tap2, Xor;
    var a, b;
    a, c := RegShuffle(enc1key);
    ghost var d := enc1key[..];
    a, b, c := RegTaps(enc1key, a, c);
    CoverAnyOrder(len, b, c);
    a := len;
    c := XorByte(c, b);
    enc1key[260] := a;
    c := XorByte(c, a);
    enc1key[259] := c;
    assert enc1key[..256] == d[..256];
  }

  /** enctype1_func6e: encrypt len bytes of the buffer in place. */
  method Func6e(data: array<byte>, len: nat, enc1key: array<byte>)
    requires enc1key.Length >= KEY_SIZE && len <= data.Length && data != enc1key
    modifies data, enc1key
    ensures (RegView(enc1key[..]), data[..len]) == Encrypt(RegView(old(enc1key[..])), old(data[..len]))
    ensures data[len..] == old(data[len..])
  {
    hide EncryptByte, Encrypt;
    ghost var s0, d := RegView(enc1key[..]), data[..];
    EncryptNothing(s0);
    for i := 0 to len
      invariant (RegView(enc1key[..]), data[..i]) == Encrypt(s0, d[..i])
      invariant data[i..] == d[i..]
    {
      EncryptStep(s0, d[..i], d[i]);
      ghost var out := data[..i];
      var c := Func7e(data[i], enc1key);
      data[i] := c;
      assert d[..i + 1] == d[..i] + [d[i]] && data[..i + 1] == out + [c];
    }
    assert d[..len] == old(data[..len]);
  }

  /** enctype1_func6: decrypt len bytes of the buffer in place. */
  method Func6(data: array<byte>, len: nat, enc1key: array<byte>)
    requires enc1key.Length >= KEY_SIZE && len <= data.Length && data != enc1key
    modifies data, enc1key
    ensures (RegView(enc1key[..]), data[..len]) == Decrypt(RegView(old(enc1key[..])), old(data[..len]))
    ensures data[len..] == old(data[len..])
  {
    hide DecryptByte, Decrypt;
    ghost var s0, d := RegView(enc1key[..]), data[..];
    DecryptNothing(s0);
    for i := 0 to len
      invariant (RegView(enc1key[..]), data[..i]) == Decrypt(s0, d[..i])
      invariant data[i..] == d[i..]
    {
      DecryptStep(s0, d[..i], d[i]);
      ghost var out := data[..i];
      var c := Func7(data[i], enc1key);
      data[i] := c;
      assert d[..i + 1] == d[..i] + [d[i]] && data[..i + 1] == out + [c];
    }
    assert d[..len] == old(data[..len]);
  }

  /** From corresponding states the two machines code a byte alike and stay in correspondence,
      whatever the card values and wherever the indices coincide. */
  method CodeOnBoth(s: GOACryptState, enc1key: array<byte>, v: byte, encrypting: bool)
    returns (named: byte, register: byte)
    requires s.Valid() && enc1key.Length >= KEY_SIZE && enc1key != s.cards
    requires s.View() == RegView(enc1key[..])
    modifies s, s.cards, enc1key
    ensures named == register && s.View() == RegView(enc1key[..])
  {
    hide Shuffle, Cover;
    if encrypting {
      named := s.EncryptByte(v);
      register := Func7e(v, enc1key);
    } else {
      named := s.DecryptByte(v);
      register := Func7(v, enc1key);
    }
  }

  /** The mask computed afresh for every draw, as the do-while loop does. */
  method ComputeMask(cnt: nat) returns (mask: nat)
    requires cnt >= 1
    ensures mask == MaskOf(cnt)
  {
    hide BitLen;
    mask := 1;
    ghost var k: nat := 1;
    if cnt > 1 {
      mask, k := 2 * mask + 1, 2;
      while mask < cnt
        invariant k >= 2 && mask == Pow2(k) - 1 && Pow2(k - 1) <= cnt
        decreases cnt - mask
      {
        mask, k := 2 * mask + 1, k + 1;
      }
    }
    BitLenUnique(cnt, k);
  }

  lemma FeedInt(F: Deck, id: UserKey, n1: nat, n2: nat)
    requires n2 < |id|
    ensures var card: int := F[n1 % 256];
            var s := card + id[n2];
            Feed(F, id, Cursor(n1 % 256, n2))
            == if n2 + 1 >= |id| then Cursor((s + |id|) % 256, 0) else Cursor(s % 256, n2 + 1)
  {
    var card: int := F[n1 % 256];
    SumMod256(card + id[n2], |id|);
  }

  /** A mask below 256 does not see what is above the low byte. */
  lemma MaskOfByte(n: nat, cnt: nat)
    requires 1 <= cnt <= 255
    ensures And(n, MaskOf(cnt)) == Mod(n % 256, MaskOf(cnt) + 1)
  {
    var k := BitLen(cnt);
    BitLenRange(cnt);
    Pow2Values();
    if k > 8 {
      Pow2Monotone(8, k - 1);
      assert false;
    }
    hide And, BitLen;
    MaskIsRemainder(n, cnt);
    Pow2Add(8 - k, k);
    hide Pow2;
    ModOfMultiple(n, Pow2(8 - k), Pow2(k));
  }

  lemma ModOfMultiple(n: nat, c: nat, d: nat)
    requires d >= 1 && c >= 1 && c * d == 256
    ensures Mod(n % 256, d) == Mod(n, d)
  {
    var q, r := n / 256, n % 256;
    var a, b := r / d, r % d;
    assert n == (q * c + a) * d + b by {
      assert n == q * (c * d) + (a * d + b);
      assert (q * c + a) * d == q * (c * d) + a * d;
    }
    DivUnique(n, d, q * c + a, b);
  }

  /** enctype1_func5: the draw, with the running sum kept in an int that is only cut to a byte
      where it is used. */
  method Func5(cnt: nat, id: UserKey, n1: nat, n2: nat, enc1key: array<byte>)
    returns (tmp: nat, m1: nat, m2: nat)
    requires enc1key.Length >= KEY_SIZE && n2 < |id| && cnt <= 255
    ensures cnt == 0 ==> tmp == 0 && m1 == n1 && m2 == n2
    ensures cnt >= 1 ==>
              var d := DrawUpTo(enc1key[..256], id, Cursor(n1 % 256, n2), cnt, 0);
              tmp == d.u && Cursor(m1 % 256, m2) == d.cursor
  {
    hide DrawUpTo, MaskOf, And, Mod, Feed;
    m1, m2 := n1, n2;
    if cnt == 0 {
      return 0, m1, m2;
    }
    var mask := ComputeMask(cnt);
    ghost var F: Deck := enc1key[..256];
    var i := 0;
    tmp := cnt + 1;
    while tmp > cnt
      invariant m2 < |id|
      invariant tmp > cnt ==> i < 12
      invariant tmp > cnt ==>
                  DrawUpTo(F, id, Cursor(m1 % 256, m2), cnt, i)
                  == DrawUpTo(F, id, Cursor(n1 % 256, n2), cnt, 0)
      invariant tmp <= cnt ==>
                  Draw(tmp, Cursor(m1 % 256, m2), i) == DrawUpTo(F, id, Cursor(n1 % 256, n2), cnt, 0)
      decreases 12 - i
    {
      DrawStep(F, id, Cursor(m1 % 256, m2), cnt, i);
      AndFF(m1);
      FeedInt(F, id, m1, m2);
      var card: int := enc1key[And(m1, 255)];
      m1 := card + id[m2];
      m2 := m2 + 1;
      if m2 >= |id| {
        m2 := 0;
        m1 := m1 + |id|;
      }
      MaskOfByte(m1, cnt);
      tmp := And(m1, mask);
      i := i + 1;
      if i > 11 {
        tmp := tmp % cnt;
      }
    }
  }

  method NumberCards(enc1key: array<byte>)
    requires enc1key.Length >= KEY_SIZE
    modifies enc1key
    ensures enc1key[..256] == Ascending() && enc1key[KEY_SIZE..] == old(enc1key[KEY_SIZE..])
  {
    for i := 0 to 256
      invariant forall k :: 0 <= k < i ==> enc1key[k] == k
      invariant enc1key[256..] == old(enc1key[256..])
    {
      enc1key[i] := i;
    }
  }

  /** The dealing loop, which also visits position 0 without effect. */
  method DealCards(id: UserKey, enc1key: array<byte>) returns (n1: nat)
    requires enc1key.Length >= KEY_SIZE && enc1key[..256] == Ascending()
    modifies enc1key
    ensures enc1key[KEY_SIZE..] == old(enc1key[KEY_SIZE..])
    ensures enc1key[..256] == After(id, |Ascending()| - 1).cards
    ensures n1 % 256 == After(id, |Ascending()| - 1).cursor.rsum
  {
    hide After, DrawUpTo, MaskOf, And;
    n1 := 0;
    var n2: nat := 0;
    var i: int := 255;
    AfterNothing(id);
    while i >= 0
      invariant -1 <= i <= 255 && n2 < |id|
      invariant enc1key[256..] == old(enc1key[256..])
      invariant Sched(enc1key[..256], Cursor(n1 % 256, n2)) == After(id, if i < 0 then 255 else 255 - i)
    {
      if i > 0 {
        AfterStep(id, i);
      }
      var t1;
      t1, n1, n2 := Func5(i, id, n1, n2, enc1key);
      var t2 := enc1key[i];
      enc1key[i] := enc1key[t1];
      enc1key[t1] := t2;
      i := i - 1;
    }
  }

  /** enctype1_func4: the key schedule over the register array. */
  method Func4(id: seq<byte>, enc1key: array<byte>)
    requires enc1key.Length >= KEY_SIZE
    modifies enc1key
    ensures |id| >= 1 ==> RegView(enc1key[..]) == Initial(id)
    ensures |id| < 1 ==> enc1key[..] == old(enc1key[..])
    ensures enc1key[KEY_SIZE..] == old(enc1key[KEY_SIZE..])
  {
    hide After;
    if |id| < 1 {
      return;
    }
    NumberCards(enc1key);
    var n1 := DealCards(id, enc1key);
    ghost var d := enc1key[..];
    AndFF(n1);
    enc1key[256] := enc1key[1];
    enc1key[257] := enc1key[3];
    enc1key[258] := enc1key[5];
    enc1key[259] := enc1key[7];
    enc1key[260] := enc1key[And(n1, 255)];
    assert enc1key[..256] == d[..256];
  }

  /** For every key of 1 to 255 bytes the two key schedules put the two machines in the same
      state, with a permutation for cards. */
  method SchedulesAgree(key: UserKey, s: GOACryptState, enc1key: array<byte>)
    requires |key| <= 255 && s.Valid() && enc1key.Length >= KEY_SIZE && enc1key != s.cards
    modifies s, s.cards, enc1key
    ensures s.View() == RegView(enc1key[..]) && Distinct(s.cards[..])
  {
    hide Initial;
    s.CryptInit(key);
    Func4(key, enc1key);
    InitialIsPermutation(key);
  }
}
