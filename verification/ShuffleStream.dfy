/** The swap-table stream cipher used twice in the servers: as one layer of the enctype1
    buffer and as the chat encryption. */
module ShuffleStream {
  import opened Bits
  import opened CardCipher

  datatype Stream = Stream(table: Deck, n1: byte, n2: byte)

  function Advance(s: Stream): Stream {
    var n1 := AddByte(s.n1, 1);
    var n2 := AddByte(s.n2, s.table[n1]);
    Stream(Swap(s.table, n1, n2), n1, n2)
  }

  /** The pad byte after an advance: the two swapped cards are added up. */
  function PadOf(s: Stream): byte {
    s.table[AddByte(s.table[s.n2], s.table[s.n1])]
  }

  /** Exclusive-or the data with the pad: the final stream and the output. */
  function Apply(s: Stream, data: seq<byte>): (Stream, seq<byte>) {
    if data == [] then (s, [])
    else
      var (t, out) := Apply(s, data[..|data| - 1]);
      var u := Advance(t);
      (u, out + [XorByte(data[|data| - 1], PadOf(u))])
  }

  lemma ApplyNothing(s: Stream)
    ensures Apply(s, []) == (s, [])
  {
  }

  lemma ApplyStep(s: Stream, data: seq<byte>, b: byte)
    ensures var (t, out) := Apply(s, data);
            var u := Advance(t);
            Apply(s, data + [b]) == (u, out + [XorByte(b, PadOf(u))])
  {
    assert (data + [b])[..|data + [b]| - 1] == data;
  }

  /** Run from the same stream, the cipher undoes itself, and both ends stay in step. */
  lemma {:induction false} ApplyTwice(s: Stream, data: seq<byte>)
    ensures Apply(s, Apply(s, data).1) == (Apply(s, data).0, data)
    decreases |data|
  {
    hide Advance, PadOf, Xor;
    if data != [] {
      var init, last := data[..|data| - 1], data[|data| - 1];
      ApplyTwice(s, init);
      var (t, out) := Apply(s, init);
      var c := XorByte(last, PadOf(Advance(t)));
      assert Apply(s, data).1 == out + [c];
      ApplyStep(s, out, c);
      XorCancels(last, PadOf(Advance(t)));
      assert data == init + [last];
    }
  }

  /** Splitting the data changes nothing. */
  lemma {:induction false} ApplySplit(s: Stream, a: seq<byte>, b: seq<byte>)
    ensures var (t, x) := Apply(s, a); var (u, y) := Apply(t, b);
            Apply(s, a + b) == (u, x + y)
    decreases |b|
  {
    hide Advance, PadOf, Xor;
    var (t, x) := Apply(s, a);
    if b == [] {
      assert a + b == a && x + [] == x;
    } else {
      var init, last := b[..|b| - 1], b[|b| - 1];
      ApplySplit(s, a, init);
      assert (a + b)[..|a + b| - 1] == a + init;
      var (u, y) := Apply(t, init);
      var z := XorByte(last, PadOf(Advance(u)));
      assert x + y + [z] == x + (y + [z]);
    }
  }

  lemma {:induction false} ApplyLength(s: Stream, data: seq<byte>)
    ensures |Apply(s, data).1| == |data|
    decreases |data|
  {
    if data != [] {
      ApplyLength(s, data[..|data| - 1]);
    }
  }

  /** The table stays a permutation over every run. */
  lemma {:induction false} ApplyKeepsPermutation(s: Stream, data: seq<byte>)
    requires Distinct(s.table)
    ensures Distinct(Apply(s, data).0.table)
    decreases |data|
  {
    hide PadOf, Xor;
    if data != [] {
      var init := data[..|data| - 1];
      ApplyKeepsPermutation(s, init);
      var t := Apply(s, init).0;
      SwapKeepsDistinct(t.table, AddByte(t.n1, 1), AddByte(t.n2, t.table[AddByte(t.n1, 1)]));
    }
  }

  // ---- key set-up ----

  function Descending(): Deck {
    seq(256, i requires 0 <= i < 256 => 255 - i)
  }

  datatype Mixing = Mixing(table: Deck, pos: byte)

  /** The table after mixing positions 0 .. n - 1 with the key, used cyclically. */
  function Mixed(key: seq<byte>, n: nat): Mixing
    requires |key| > 0 && n <= 256
  {
    if n == 0 then Mixing(Descending(), 0)
    else
      var m := Mixed(key, n - 1);
      var pos := AddByte(m.pos, AddByte(key[(n - 1) % |key|], m.table[n - 1]));
      Mixing(Swap(m.table, n - 1, pos), pos)
  }

  lemma MixedNothing(key: seq<byte>)
    requires |key| > 0
    ensures Mixed(key, 0) == Mixing(Descending(), 0)
  {
  }

  lemma MixedStep(key: seq<byte>, n: nat)
    requires |key| > 0 && n < 256
    ensures var m := Mixed(key, n);
            var pos := AddByte(m.pos, AddByte(key[n % |key|], m.table[n]));
            Mixed(key, n + 1) == Mixing(Swap(m.table, n, pos), pos)
  {
  }

  /** A freshly keyed stream. */
  function Keyed(key: seq<byte>): Stream
    requires |key| > 0
  {
    Stream(Mixed(key, |Descending()|).table, 0, 0)
  }

  lemma {:induction false} MixedIsPermutation(key: seq<byte>, n: nat)
    requires |key| > 0 && n <= 256
    ensures Distinct(Mixed(key, n).table)
    decreases n
  {
    if n > 0 {
      MixedIsPermutation(key, n - 1);
      var m := Mixed(key, n - 1);
      SwapKeepsDistinct(m.table, n - 1, AddByte(m.pos, AddByte(key[(n - 1) % |key|], m.table[n - 1])));
    }
  }

  // ---- the array form of the enctype1 layer ----

  const CRYPT_SIZE: nat := 258

  /** Slots 256 and 257 of the array are the two indices. */
  ghost function CryptView(c: seq<byte>): Stream
    requires |c| >= CRYPT_SIZE
  {
    Stream(c[..256], c[256], c[257])
  }

  /** enctype1_func2 */
  method Func2(data: array<byte>, size: nat, crypt: array<byte>)
    requires crypt.Length >= CRYPT_SIZE && size <= data.Length && data != crypt
    modifies data, crypt
    ensures (CryptView(crypt[..]), data[..size]) == Apply(CryptView(old(crypt[..])), old(data[..size]))
    ensures data[size..] == old(data[size..])
  {
    hide Xor, Apply, AddByte;
    var n1, n2 := crypt[256], crypt[257];
    ghost var s0, d := CryptView(crypt[..]), data[..];
    ApplyNothing(s0);
    for i := 0 to size
      invariant (Stream(crypt[..256], n1, n2), data[..i]) == Apply(s0, d[..i])
      invariant data[i..] == d[i..]
    {
      ApplyStep(s0, d[..i], d[i]);
      ghost var out := data[..i];
      n1 := AddByte(n1, 1);
      var t := crypt[n1];
      n2 := AddByte(n2, t);
      crypt[n1] := crypt[n2];
      crypt[n2] := t;
      t := AddByte(t, crypt[n1]);
      data[i] := XorByte(data[i], crypt[t]);
      assert d[..i + 1] == d[..i] + [d[i]] && data[..i + 1] == out + [data[i]];
    }
    ghost var c := crypt[..];
    crypt[256] := n1;
    crypt[257] := n2;
    assert crypt[..256] == c[..256] && d[..size] == old(data[..size]);
  }

  /** enctype1_func3 */
  method Func3(data: seq<byte>, buff: array<byte>)
    requires |data| > 0 && buff.Length >= CRYPT_SIZE
    modifies buff
    ensures CryptView(buff[..]) == Keyed(data)
    ensures buff[CRYPT_SIZE..] == old(buff[CRYPT_SIZE..])
  {
    hide AddByte, Mixed;
    var pos: byte, rev: byte := 0, 0xff;
    for i := 0 to 256
      invariant rev == if i == 256 then 0xff else 255 - i
      invariant forall k :: 0 <= k < i ==> buff[k] == 255 - k
      invariant buff[CRYPT_SIZE..] == old(buff[CRYPT_SIZE..])
    {
      buff[i] := rev;
      rev := if rev == 0 then 0xff else rev - 1;
    }
    buff[256] := 0;
    buff[257] := 0;
    MixedNothing(data);
    for i := 0 to 256
      invariant Mixing(buff[..256], pos) == Mixed(data, i)
      invariant buff[256] == 0 && buff[257] == 0
      invariant buff[CRYPT_SIZE..] == old(buff[CRYPT_SIZE..])
    {
      MixedStep(data, i);
      var tmp := buff[i];
      pos := AddByte(pos, AddByte(data[i % |data|], tmp));
      buff[i] := buff[pos];
      buff[pos] := tmp;
    }
  }

  // ---- the struct form of the chat encryption ----

  class PeerchatCtx {
    var num1: byte
    var num2: byte
    const crypt: array<byte>

    constructor ()
      ensures Valid() && fresh(crypt)
    {
      crypt := new byte[256];
      num1, num2 := 0, 0;
    }

    ghost predicate Valid() {
      crypt.Length == 256
    }

    ghost function View(): Stream
      requires Valid()
      reads this, crypt
    {
      Stream(crypt[..], num1, num2)
    }

    /** gs_peerchat_init: the 16 challenge bytes are exclusive-ored with the game key, repeated
        as often as needed, and the result keys the table. */
    method Init(chall: seq<byte>, gamekey: seq<byte>)
      requires Valid() && |chall| >= 16 && |gamekey| > 0
      modifies this, crypt
      ensures View() == Keyed(Challenge(chall, gamekey))
    {
      hide Mixed, Challenge;
      num1, num2 := 0, 0;
      var challenge := XorChallenge(chall, gamekey);
      for p := 0 to 256
        invariant forall k :: 0 <= k < p ==> crypt[k] == 255 - k
        invariant num1 == 0 && num2 == 0
      {
        crypt[p] := 255 - p;
      }
      assert crypt[..] == Descending();
      MixTable(challenge, crypt);
    }

    /** gs_peerchat */
    method Crypt(data: array<byte>, size: nat)
      requires Valid() && size <= data.Length && data != crypt
      modifies this, crypt, data
      ensures (View(), data[..size]) == Apply(old(View()), old(data[..size]))
      ensures data[size..] == old(data[size..])
    {
      hide Xor, Apply, AddByte;
      var n1, n2 := num1, num2;
      ghost var s0, d := View(), data[..];
      ApplyNothing(s0);
      for i := 0 to size
        invariant (Stream(crypt[..], n1, n2), data[..i]) == Apply(s0, d[..i])
        invariant data[i..] == d[i..]
      {
        ApplyStep(s0, d[..i], d[i]);
        ghost var out := data[..i];
        n1 := AddByte(n1, 1);
        var t := crypt[n1];
        n2 := AddByte(n2, t);
        crypt[n1] := crypt[n2];
        crypt[n2] := t;
        t := AddByte(t, crypt[n1]);
        data[i] := XorByte(data[i], crypt[t]);
        assert d[..i + 1] == d[..i] + [d[i]] && data[..i + 1] == out + [data[i]];
      }
      num1, num2 := n1, n2;
      assert d[..size] == old(data[..size]);
    }
  }

  /** The 16 bytes that key the chat table. */
  function Challenge(chall: seq<byte>, gamekey: seq<byte>): seq<byte>
    requires |chall| >= 16 && |gamekey| > 0
  {
    seq(16, k requires 0 <= k < 16 => XorByte(chall[k], gamekey[k % |gamekey|]))
  }

  /** The first loop of gs_peerchat_init; the key pointer goes back to the start when it stands
      on the terminator. */
  method XorChallenge(chall: seq<byte>, gamekey: seq<byte>) returns (challenge: seq<byte>)
    requires |chall| >= 16 && |gamekey| > 0
    ensures challenge == Challenge(chall, gamekey) && |challenge| == 16
  {
    hide XorByte;
    challenge := [];
    var l: nat := 0;
    for p := 0 to 16
      invariant 0 <= l <= |gamekey|
      invariant p % |gamekey| == if l == |gamekey| then 0 else l
      invariant |challenge| == p
      invariant forall k :: 0 <= k < p ==> challenge[k] == XorByte(chall[k], gamekey[k % |gamekey|])
    {
      if l == |gamekey| {
        l := 0;
      }
      NextInCycle(p, |gamekey|);
      challenge := challenge + [XorByte(chall[p], gamekey[l])];
      l := l + 1;
    }
  }

  /** The last loop of gs_peerchat_init; the challenge pointer wraps after 16 bytes. */
  method MixTable(challenge: seq<byte>, crypt: array<byte>)
    requires |challenge| == 16 && crypt.Length == 256 && crypt[..] == Descending()
    modifies crypt
    ensures crypt[..] == Mixed(challenge, |Descending()|).table
  {
    hide AddByte, Mixed;
    var t1: byte, p1: nat := 0, 0;
    MixedNothing(challenge);
    for p := 0 to 256
      invariant p1 == p % |challenge|
      invariant Mixing(crypt[..], t1) == Mixed(challenge, p)
    {
      MixedStep(challenge, p);
      NextInCycle(p, |challenge|);
      t1 := AddByte(t1, AddByte(challenge[p1], crypt[p]));
      var t := crypt[t1];
      crypt[t1] := crypt[p];
      crypt[p] := t;
      p1 := p1 + 1;
      if p1 == 16 {
        p1 := 0;
      }
    }
  }

  lemma NextInCycle(p: nat, n: nat)
    requires n > 0
    ensures (p + 1) % n == if p % n + 1 == n then 0 else p % n + 1
  {
    var q, r := p / n, p % n;
    if r + 1 == n {
      assert p + 1 == (q + 1) * n;
      DivUnique(p + 1, n, q + 1, 0);
    } else {
      DivUnique(p + 1, n, q, r + 1);
    }
  }

  // ---- what the pad is ----

  /** A byte goes out as it came in exactly when the card at the sum of the two swapped cards is 0. */
  lemma UnchangedExactly(s: Stream, b: byte)
    ensures var u := Apply(s, [b]).0;
            Apply(s, [b]).1 == [b] <==> u.table[SumByte(u.table[u.n1], u.table[u.n2], 0)] == 0
  {
    ApplyNothing(s);
    ApplyStep(s, [], b);
    assert [] + [b] == [b];
    var u := Advance(s);
    hide Advance, Xor, Apply;
    XorUnchanged(b, PadOf(u), 0);
    XorComm(XorByte(b, PadOf(u)), 0);
    XorZero(XorByte(b, PadOf(u)));
  }

  /** The first two steps from the reversed table with both indices 0. */
  lemma FirstSteps()
    ensures var s := Stream(Descending(), 0, 0);
            var t := Advance(s);
            var u := Advance(t);
            && t == Stream(Descending()[1 := 1][254 := 254], 1, 254) && PadOf(t) == 0
            && u == Stream(t.table[2 := 4][251 := 253], 2, 251) && PadOf(u) == 1
  {
  }

  /** Two steps of mixing the reversed table with the key byte 2. */
  lemma FirstMixing(key: seq<byte>)
    requires key == [2]
    ensures Mixed(key, 2) == Mixing(Descending()[0 := 254][1 := 253][2 := 255], 2)
  {
    MixedNothing(key);
    MixedStep(key, 0);
    MixedStep(key, 1);
    FirstSwaps();
    hide Mixed, Swap, Descending;
    assert AddByte(0, AddByte(2, 255)) == 1 && AddByte(1, AddByte(2, 255)) == 2;
  }

  lemma FirstSwaps()
    ensures Descending()[0] == 255 && Swap(Descending(), 0, 1)[1] == 255
    ensures Swap(Swap(Descending(), 0, 1), 1, 2) == Descending()[0 := 254][1 := 253][2 := 255]
  {
  }

  /** Exclusive-or with the repeated game key gives the challenge back. */
  lemma ChallengeUndone(chall: seq<byte>, gamekey: seq<byte>)
    requires |chall| == 16 && |gamekey| > 0
    ensures Challenge(Challenge(chall, gamekey), gamekey) == chall
  {
    hide Xor;
    forall k | 0 <= k < 16 ensures Challenge(Challenge(chall, gamekey), gamekey)[k] == chall[k] {
      XorCancels(chall[k], gamekey[k % |gamekey|]);
    }
  }

  /** Two game keys that differ in the byte used at a place give different table keys. */
  lemma GameKeysTold(chall: seq<byte>, a: seq<byte>, b: seq<byte>, k: nat)
    requires |chall| >= 16 && |a| > 0 && |b| > 0 && k < 16 && a[k % |a|] != b[k % |b|]
    ensures Challenge(chall, a) != Challenge(chall, b)
  {
    var x, y := a[k % |a|], b[k % |b|];
    XorComm(chall[k], x);
    XorComm(chall[k], y);
    XorCancels(x, chall[k]);
    XorCancels(y, chall[k]);
    hide Xor;
    assert Challenge(chall, a)[k] != Challenge(chall, b)[k];
  }
}
