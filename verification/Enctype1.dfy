/** The layered enctype1 buffer: tree-cipher pad on the first part, the swap-table stream over
    everything, the card cipher on the first quarter, and the stream's key sent as offsets into
    a fixed table. */
module Enctype1 {
  import opened Bits
  import opened CardCipher
  import opened KeySchedule
  import opened RegisterCipher
  import opened ShuffleStream
  import TreeCipher
  import KeyTable
  import TreeKeystream
  import FlatKeystream

  /** The master key with the terminator that sizeof counts. */
  type MasterKey = m: seq<byte> | |m| == 257 witness seq(257, _ => 0)

  const SCRAMBLE_LEN: nat := 16

  // ---- the table lookup and its inverse ----

  method FindMasterKeyOffset(key: byte, master: MasterKey) returns (r: int)
    ensures r == -1 <==> key !in master
    ensures r != -1 ==> 0 <= r < |master| && master[r] == key && key !in master[..r]
  {
    for i := 0 to |master|
      invariant key !in master[..i]
    {
      if master[i] == key {
        return i;
      }
    }
    return -1;
  }

  /** What a scramble byte is replaced by: the first offset at which the table holds it, cut to
      a byte; a byte the table does not hold stays. */
  ghost predicate Obfuscated(b: byte, o: byte, master: MasterKey) {
    && (b in master[..256] ==> master[o] == b && b !in master[..o])
    && (b !in master[..256] && b == master[256] ==> o == 0)
    && (b !in master ==> o == b)
  }

  method ObfuscateScrambleData(scramble: array<byte>, len: nat, master: MasterKey)
    requires len <= scramble.Length
    modifies scramble
    ensures forall i :: 0 <= i < len ==> Obfuscated(old(scramble[i]), scramble[i], master)
    ensures forall i :: len <= i < scramble.Length ==> scramble[i] == old(scramble[i])
  {
    for i := 0 to len
      invariant forall k :: 0 <= k < i ==> Obfuscated(old(scramble[k]), scramble[k], master)
      invariant forall k :: i <= k < scramble.Length ==> scramble[k] == old(scramble[k])
    {
      var offset := FindMasterKeyOffset(scramble[i], master);
      OffsetObfuscates(scramble[i], offset, master);
      if offset != -1 {
        scramble[i] := offset % 256;
      }
    }
  }

  lemma OffsetObfuscates(b: byte, r: int, master: MasterKey)
    requires r == -1 <==> b !in master
    requires r != -1 ==> 0 <= r < |master| && master[r] == b && b !in master[..r]
    ensures Obfuscated(b, if r == -1 then b else r % 256, master)
  {
    if r == 256 {
      assert b !in master[..256];
    } else if r != -1 {
      assert master[..256][r] == b;
    }
  }

  /** enctype1_func8 */
  method Func8(data: array<byte>, len: nat, table: seq<byte>)
    requires len <= data.Length && |table| >= 256
    modifies data
    ensures forall i :: 0 <= i < len ==> data[i] == table[old(data[i])]
    ensures forall i :: len <= i < data.Length ==> data[i] == old(data[i])
  {
    for i := 0 to len
      invariant forall k :: 0 <= k < i ==> data[k] == table[old(data[k])]
      invariant forall k :: i <= k < data.Length ==> data[k] == old(data[k])
    {
      data[i] := table[data[i]];
    }
  }

  /** The lookup undoes the obfuscation of every byte drawn from the table. */
  lemma LookupUndoesObfuscation(b: byte, o: byte, master: MasterKey)
    requires Obfuscated(b, o, master) && b in master[..256]
    ensures master[o] == b
  {
  }

  // ---- the three layers on values ----

  function PadLen(n: nat): int { n / 2 - 17 }

  function CardLen(n: nat): int { n / 4 - 5 }

  function SeedBytes(seed: word): KeyTable.Key {
    [KeyTable.ByteOf(seed, 0), KeyTable.ByteOf(seed, 1), KeyTable.ByteOf(seed, 2), KeyTable.ByteOf(seed, 3)]
  }

  function SeedPad(seed: word, i: nat): byte {
    TreeKeystream.PadByte(TreeCipher.MacrosOf(KeyTable.Setup(SeedBytes(seed))), 0, i)
  }

  /** The tree-cipher pad on the first half less 17 bytes. */
  function PadLayer(seed: word, d: seq<byte>): (r: seq<byte>)
    ensures |r| == |d|
  {
    seq(|d|, i requires 0 <= i < |d| =>
      if i < PadLen(|d|) then XorByte(d[i], SeedPad(seed, i)) else d[i])
  }

  /** The swap-table stream over everything. */
  function StreamLayer(scramble: seq<byte>, d: seq<byte>): (r: seq<byte>)
    requires |scramble| > 0
    ensures |r| == |d|
  {
    ApplyLength(Keyed(scramble), d);
    Apply(Keyed(scramble), d).1
  }

  /** The card cipher on the first quarter less 5 bytes. */
  function CardLayer(key: UserKey, d: seq<byte>): seq<byte> {
    if CardLen(|d|) < 0 then d
    else Encrypt(Initial(key), d[..CardLen(|d|)]).1 + d[CardLen(|d|)..]
  }

  function CardUnlayer(key: UserKey, d: seq<byte>): seq<byte> {
    if CardLen(|d|) < 0 then d
    else Decrypt(Initial(key), d[..CardLen(|d|)]).1 + d[CardLen(|d|)..]
  }

  function Encode(key: UserKey, seed: word, scramble: seq<byte>, d: seq<byte>): seq<byte>
    requires |scramble| > 0
  {
    CardLayer(key, StreamLayer(scramble, PadLayer(seed, d)))
  }

  /** The inverse layers in reverse order, with the same length formulas. */
  function Decode(key: UserKey, seed: word, scramble: seq<byte>, d: seq<byte>): seq<byte>
    requires |scramble| > 0
  {
    PadLayer(seed, StreamLayer(scramble, CardUnlayer(key, d)))
  }

  lemma PadLayerTwice(seed: word, d: seq<byte>)
    ensures PadLayer(seed, PadLayer(seed, d)) == d
  {
    hide SeedPad, Xor;
    forall i | 0 <= i < |d| ensures PadLayer(seed, PadLayer(seed, d))[i] == d[i] {
      XorCancels(d[i], SeedPad(seed, i));
    }
  }

  lemma StreamLayerTwice(scramble: seq<byte>, d: seq<byte>)
    requires |scramble| > 0
    ensures StreamLayer(scramble, StreamLayer(scramble, d)) == d
  {
    ApplyTwice(Keyed(scramble), d);
  }

  lemma {:induction false} EncryptLength(s: State, bs: seq<byte>)
    ensures |Encrypt(s, bs).1| == |bs|
    decreases |bs|
  {
    hide EncryptByte;
    if bs != [] {
      EncryptLength(s, bs[..|bs| - 1]);
    }
  }

  lemma CardLayerInverts(key: UserKey, d: seq<byte>)
    ensures |CardLayer(key, d)| == |d| && CardUnlayer(key, CardLayer(key, d)) == d
  {
    hide Initial, Encrypt, Decrypt;
    var q := CardLen(|d|);
    if q >= 0 {
      var s := Initial(key);
      EncryptLength(s, d[..q]);
      RoundTrip(s, d[..q]);
      var e := CardLayer(key, d);
      assert e[..q] == Encrypt(s, d[..q]).1 && e[q..] == d[q..];
      assert d[..q] + d[q..] == d;
    }
  }

  /** The whole pipeline is invertible, for every length, key, seed and scramble. */
  lemma DecodeInvertsEncode(key: UserKey, seed: word, scramble: seq<byte>, d: seq<byte>)
    requires |scramble| > 0
    ensures Decode(key, seed, scramble, Encode(key, seed, scramble, d)) == d
  {
    hide PadLayer, StreamLayer, CardLayer, CardUnlayer;
    var p := PadLayer(seed, d);
    PadLayerTwice(seed, d);
    StreamLayerTwice(scramble, p);
    CardLayerInverts(key, StreamLayer(scramble, p));
  }

  // ---- the buffer as it goes over the wire ----

  /** The pad part is within what the leaves of the key tree provide. */
  predicate WithinLeaves(n: nat) {
    PadLen(n) >= 0 ==> 16 * FlatKeystream.BlockCount(PadLen(n)) <= TreeCipher.LEAVES
  }

  method PadFirstPart(data: array<byte>, seed: word)
    requires WithinLeaves(data.Length)
    modifies data
    ensures data[..] == PadLayer(seed, old(data[..]))
  {
    hide XorByte, KeyTable.Setup, TreeKeystream.PadByte, FlatKeystream.PadByteFrom, TreeCipher.MacrosOf,
         FlatKeystream.FlatReady;
    FlatKeystream.PadFromStart(TreeCipher.MacrosOf(KeyTable.Setup(SeedBytes(seed))), 0);
    var tmplen := PadLen(data.Length);
    if tmplen >= 0 {
      var tbuff := new word[326];
      FlatKeystream.Encshare4(SeedBytes(seed), tbuff);
      assert tbuff[..][..256] == tbuff[..256];
      FlatKeystream.Encshare1(tbuff, data, tmplen, 0);
    }
  }

  method StreamEverything(data: array<byte>, scramble: seq<byte>)
    requires |scramble| > 0
    modifies data
    ensures data[..] == StreamLayer(scramble, old(data[..]))
  {
    hide Apply, Keyed;
    var encryptionKey := new byte[CRYPT_SIZE];
    Func3(scramble, encryptionKey);
    assert data[..data.Length] == data[..];
    Func2(data, data.Length, encryptionKey);
    assert data[..data.Length] == data[..];
  }

  method CardFirstPart(data: array<byte>, key: UserKey, encrypting: bool)
    modifies data
    ensures data[..] == if encrypting then CardLayer(key, old(data[..])) else CardUnlayer(key, old(data[..]))
  {
    hide Encrypt, Decrypt, Initial;
    var tmplen := CardLen(data.Length);
    ghost var d := data[..];
    if tmplen >= 0 {
      var enc1key := new byte[KEY_SIZE];
      Func4(key, enc1key);
      assert d[..tmplen] == data[..tmplen] && d[tmplen..] == data[tmplen..];
      if encrypting {
        Func6e(data, tmplen, enc1key);
      } else {
        Func6(data, tmplen, enc1key);
      }
      assert data[..] == data[..tmplen] + data[tmplen..];
    }
  }

  const DATA_AT: nat := 58
  const SCRAMBLE_AT: nat := 19
  const SEED_AT: nat := 36

  function BigEndian(n: nat): seq<byte> {
    [KeyTable.ByteOf(n, 3), KeyTable.ByteOf(n, 2), KeyTable.ByteOf(n, 1), KeyTable.ByteOf(n, 0)]
  }

  /** The packet: length, two fixed bytes, 13 unused, the scramble offsets, one unused, the seed,
      18 unused, the data. */
  function Packet(unused13: seq<byte>, offsets: seq<byte>, unused1: byte, seed: word,
                  unused18: seq<byte>, body: seq<byte>): seq<byte>
    requires |unused13| == 13 && |offsets| == SCRAMBLE_LEN && |unused18| == 18
  {
    BigEndian(DATA_AT + |body|) + [42, 218] + unused13 + offsets + [unused1] + SeedBytes(seed) + unused18 + body
  }

  /** Build the packet around data, which is encoded in place. */
  method CreateBuffer(validateKey: UserKey, data: array<byte>, seed: word, picks: seq<byte>, master: MasterKey,
                      unused13: seq<byte>, unused1: byte, unused18: seq<byte>)
    returns (output: seq<byte>, ghost scramble: seq<byte>, ghost offsets: seq<byte>)
    requires WithinLeaves(data.Length)
    requires |picks| == SCRAMBLE_LEN && |unused13| == 13 && |unused18| == 18
    modifies data
    ensures scramble == seq(SCRAMBLE_LEN, i requires 0 <= i < SCRAMBLE_LEN => master[picks[i]])
    ensures |offsets| == SCRAMBLE_LEN
    ensures forall i :: 0 <= i < SCRAMBLE_LEN ==> master[offsets[i]] == scramble[i]
    ensures output == Packet(unused13, offsets, unused1, seed, unused18,
                             Encode(validateKey, seed, scramble, old(data[..])))
  {
    hide PadLayer, StreamLayer, CardLayer;
    PadFirstPart(data, seed);
    var scrambleData := new byte[SCRAMBLE_LEN](i requires 0 <= i < SCRAMBLE_LEN => master[picks[i]]);
    scramble := scrambleData[..];
    StreamEverything(data, scrambleData[..]);
    CardFirstPart(data, validateKey, true);
    ObfuscateScrambleData(scrambleData, SCRAMBLE_LEN, master);
    offsets := scrambleData[..];
    forall i | 0 <= i < SCRAMBLE_LEN ensures master[offsets[i]] == scramble[i] {
      assert master[..256][picks[i]] == scramble[i];
      LookupUndoesObfuscation(scramble[i], offsets[i], master);
    }
    output := Packet(unused13, scrambleData[..], unused1, seed, unused18, data[..]);
  }

  lemma PacketFields(unused13: seq<byte>, offsets: seq<byte>, unused1: byte, seed: word,
                     unused18: seq<byte>, body: seq<byte>)
    requires |unused13| == 13 && |offsets| == SCRAMBLE_LEN && |unused18| == 18
    ensures var p := Packet(unused13, offsets, unused1, seed, unused18, body);
            && |p| == DATA_AT + |body|
            && p[SCRAMBLE_AT..SCRAMBLE_AT + SCRAMBLE_LEN] == offsets
            && p[SEED_AT..SEED_AT + 4] == SeedBytes(seed)
            && p[DATA_AT..] == body
  {
    hide KeyTable.ByteOf;
  }

  /** Reading four little-endian bytes back. */
  function ReadWord(b: seq<byte>): word
    requires |b| == 4
  {
    var b0: int, b1: int, b2: int, b3: int := b[0], b[1], b[2], b[3];
    b0 + 256 * b1 + 65536 * b2 + 0x100_0000 * b3
  }

  lemma SeedReadBack(seed: word)
    ensures ReadWord(SeedBytes(seed)) == seed
  {
    assert seed / 256 == seed / 65536 * 256 + seed / 256 % 256;
    assert seed / 65536 == seed / 0x100_0000 * 256 + seed / 65536 % 256;
  }

  /** The receiving side, put together from the decoder's routines in reverse order: look the
      scramble up, take the card layer off, then the stream, then the pad. */
  method Recover(validateKey: UserKey, packet: seq<byte>, master: MasterKey) returns (data: array<byte>)
    requires |packet| >= DATA_AT && WithinLeaves(|packet| - DATA_AT)
    ensures fresh(data)
    ensures data[..] == Decode(validateKey, ReadWord(packet[SEED_AT..SEED_AT + 4]),
                               seq(SCRAMBLE_LEN, i requires 0 <= i < SCRAMBLE_LEN => master[packet[SCRAMBLE_AT + i]]),
                               packet[DATA_AT..])
  {
    hide PadLayer, StreamLayer, CardUnlayer, ReadWord;
    var scramble := FlatKeystream.CopyBytes(packet[SCRAMBLE_AT..SCRAMBLE_AT + SCRAMBLE_LEN]);
    ghost var offsets := scramble[..];
    Func8(scramble, SCRAMBLE_LEN, master);
    assert scramble[..] == seq(SCRAMBLE_LEN, i requires 0 <= i < SCRAMBLE_LEN => master[packet[SCRAMBLE_AT + i]]);
    data := FlatKeystream.CopyBytes(packet[DATA_AT..]);
    CardFirstPart(data, validateKey, false);
    StreamEverything(data, scramble[..]);
    PadFirstPart(data, ReadWord(packet[SEED_AT..SEED_AT + 4]));
  }

  /** Whatever goes in comes out: for every plaintext within the leaf budget and whatever the
      random choices, recovering the created buffer gives the plaintext. */
  method SendAndRecover(validateKey: UserKey, plain: seq<byte>, seed: word, picks: seq<byte>, master: MasterKey,
                        unused13: seq<byte>, unused1: byte, unused18: seq<byte>)
    returns (received: seq<byte>)
    requires WithinLeaves(|plain|)
    requires |picks| == SCRAMBLE_LEN && |unused13| == 13 && |unused18| == 18
    ensures received == plain
  {
    hide Encode, Decode, Packet, ReadWord, SeedBytes;
    var buffer := FlatKeystream.CopyBytes(plain);
    var packet;
    ghost var scramble, offsets;
    packet, scramble, offsets := CreateBuffer(validateKey, buffer, seed, picks, master, unused13, unused1, unused18);
    ghost var body := Encode(validateKey, seed, scramble, plain);
    EncodeLength(validateKey, seed, scramble, plain);
    PacketFields(unused13, offsets, unused1, seed, unused18, body);
    var data := Recover(validateKey, packet, master);
    SeedReadBack(seed);
    assert scramble == seq(SCRAMBLE_LEN, i requires 0 <= i < SCRAMBLE_LEN => master[packet[SCRAMBLE_AT + i]]) by {
      forall i | 0 <= i < SCRAMBLE_LEN ensures scramble[i] == master[packet[SCRAMBLE_AT + i]] {
        assert packet[SCRAMBLE_AT..SCRAMBLE_AT + SCRAMBLE_LEN][i] == offsets[i];
      }
    }
    DecodeInvertsEncode(validateKey, seed, scramble, plain);
    received := data[..];
  }

  lemma EncodeLength(key: UserKey, seed: word, scramble: seq<byte>, d: seq<byte>)
    requires |scramble| > 0
    ensures |Encode(key, seed, scramble, d)| == |d|
  {
    hide CardLayer;
    CardLayerInverts(key, StreamLayer(scramble, PadLayer(seed, d)));
  }

  // ---- which layer covers what ----

  /** Byte i is under the pad exactly from 2 i + 36 bytes of data on. */
  lemma PadReach(seed: word, d: seq<byte>, i: nat)
    requires i < |d|
    ensures PadLayer(seed, d)[i] == if |d| >= 2 * i + 36 then XorByte(d[i], SeedPad(seed, i)) else d[i]
  {
    hide SeedPad, Xor;
  }

  /** The part of the streamed data that the card cipher covers, covered. */
  function CardPart(key: UserKey, s: seq<byte>): seq<byte> {
    if |s| < 24 then [] else Encrypt(Initial(key), s[..|s| / 4 - 5]).1
  }

  /** Byte i is under the card cipher exactly from 4 i + 24 bytes of data on; below that it is the
      stream over the pad. */
  lemma CardReach(key: UserKey, seed: word, scramble: seq<byte>, d: seq<byte>, i: nat)
    requires |scramble| > 0 && i < |d|
    ensures var s, e := Apply(Keyed(scramble), PadLayer(seed, d)).1, Encode(key, seed, scramble, d);
            && |s| == |d| == |e|
            && if |d| < 4 * i + 24 then e[i] == s[i] else i < |CardPart(key, s)| && e[i] == CardPart(key, s)[i]
  {
    hide PadLayer, Apply, Keyed, Initial, Encrypt;
    var s := StreamLayer(scramble, PadLayer(seed, d));
    CardLayerInverts(key, s);
    if |s| / 4 >= 5 {
      EncryptLength(Initial(key), s[..|s| / 4 - 5]);
    }
  }

  /** The head of a packet: its length, most significant byte first, and two fixed bytes; the
      scramble starts at 19, the seed at 36, the data at 58. */
  lemma PacketHead(unused13: seq<byte>, offsets: seq<byte>, unused1: byte, seed: word,
                   unused18: seq<byte>, body: seq<byte>)
    requires |unused13| == 13 && |offsets| == 16 && |unused18| == 18 && |body| < 0x1_0000_0000 - 58
    ensures var p := Packet(unused13, offsets, unused1, seed, unused18, body);
            && |p| == 58 + |body| && ReadWord([p[3], p[2], p[1], p[0]]) == |p|
            && p[4] == 42 && p[5] == 218
            && p[19..35] == offsets && ReadWord(p[36..40]) == seed && p[58..] == body
  {
    var p := Packet(unused13, offsets, unused1, seed, unused18, body);
    PacketFields(unused13, offsets, unused1, seed, unused18, body);
    SeedReadBack(seed);
    SeedReadBack(58 + |body|);
    hide KeyTable.ByteOf, ReadWord;
    assert [p[3], p[2], p[1], p[0]] == SeedBytes(58 + |body|);
  }
}
