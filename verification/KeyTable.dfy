/** The lookup table of the tree cipher, set up from a key of any non-zero length. */
module KeyTable {
  import opened Bits
  import opened TreeCipher

  type Key = k: seq<byte> | |k| > 0 witness [0]

  /** Make room for one more byte in every word and number the words with it. */
  function Widen(F: Table): Table {
    seq(256, i requires 0 <= i < 256 => AddWord(MulWord(F[i], 256), i))
  }

  function Swap(F: Table, i: nat, j: nat): Table
    requires i < 256 && j < 256
  {
    F[i := F[j]][j := F[i]]
  }

  /** The swap partner of position i; the sum is only ever used modulo 256. */
  function Partner(key: Key, F: Table, index: nat, i: nat): byte
    requires i < 256
  {
    (index + key[i % |key|] + F[i]) % 256
  }

  datatype Deck = Deck(F: Table, index: byte)

  /** The deck after swapping positions 0 .. n - 1 of a pass. */
  function Pass(key: Key, d: Deck, n: nat): Deck
    requires n <= 256
  {
    if n == 0 then d
    else
      var e := Pass(key, d, n - 1);
      var j := Partner(key, e.F, e.index, n - 1);
      Deck(Swap(e.F, n - 1, j), j)
  }

  /** The deck after n full passes. */
  function Passes(key: Key, d: Deck, n: nat): Deck {
    if n == 0 then d
    else
      var e := Passes(key, d, n - 1);
      Pass(key, e, |e.F|)
  }

  const ROUNDS: nat := 4

  /** The table after r rounds of widening and shuffling; a round starts at index r. */
  function Rounds(key: Key, r: nat): Table
    requires r <= ROUNDS
  {
    if r == 0 then seq(256, i => 0)
    else Passes(key, Deck(Widen(Rounds(key, r - 1)), r - 1), SETUP_PASSES).F
  }

  function Masked(F: Table): Table {
    seq(256, i requires 0 <= i < 256 => XorWord(F[i], i))
  }

  /** The finished table. */
  function Setup(key: Key): Table {
    Masked(Rounds(key, ROUNDS))
  }

  lemma PassStep(key: Key, d: Deck, i: nat)
    requires i < 256
    ensures var e := Pass(key, d, i);
            var j := Partner(key, e.F, e.index, i);
            Pass(key, d, i + 1) == Deck(Swap(e.F, i, j), j)
  {
  }

  /** Word arithmetic that wraps at 2^32 and is then cut to a byte gives the swap partner. */
  lemma PartnerOf(key: Key, F: Table, index: byte, i: nat)
    requires i < 256
    ensures LowByte(AddWord(index, AddWord(key[i % |key|], F[i]))) == Partner(key, F, index, i)
  {
    hide And;
    PartnerSum(index, key[i % |key|], F[i]);
  }

  lemma PartnerSum(index: nat, k: nat, f: nat)
    ensures (index + (k + f) % 0x1_0000_0000) % 0x1_0000_0000 % 256 == (index + k + f) % 256
  {
    WrapKeepsLowByte(index + (k + f) % 0x1_0000_0000);
    SameLowByte(index + k + f, (k + f) / 0x1_0000_0000 * 0x100_0000, index + (k + f) % 0x1_0000_0000);
  }

  lemma WrapKeepsLowByte(x: nat)
    ensures x % 0x1_0000_0000 % 256 == x % 256
  {
    SameLowByte(x, x / 0x1_0000_0000 * 0x100_0000, x % 0x1_0000_0000);
  }

  lemma RoundStep(key: Key, r: nat)
    requires r < ROUNDS
    ensures Rounds(key, r + 1) == Passes(key, Deck(Widen(Rounds(key, r)), r), SETUP_PASSES).F
  {
    hide Passes;
  }

  lemma PassesStart(key: Key, d: Deck)
    ensures Passes(key, d, 0) == d
  {
  }

  lemma PassesStep(key: Key, d: Deck, n: nat)
    ensures var e := Passes(key, d, n); Passes(key, d, n + 1) == Pass(key, e, |e.F|)
  {
    hide Pass;
  }

  // ---- every byte column of the shuffled table is a permutation of 0..255 ----

  /** The k-th byte of a word, lowest first: in memory order on a little-endian machine. */
  function ByteOf(w: nat, k: nat): byte {
    if k == 0 then w % 256
    else if k == 1 then w / 256 % 256
    else if k == 2 then w / 65536 % 256
    else w / 0x100_0000 % 256
  }

  /** No two words of the table agree in byte k. */
  ghost predicate ColumnDistinct(F: Table, k: nat) {
    forall i, j :: 0 <= i < j < 256 ==> ByteOf(F[i], k) != ByteOf(F[j], k)
  }

  lemma SwapKeepsColumn(F: Table, i: nat, j: nat, k: nat)
    requires i < 256 && j < 256 && ColumnDistinct(F, k)
    ensures ColumnDistinct(Swap(F, i, j), k)
  {
  }

  lemma {:induction false} PassKeepsColumn(key: Key, d: Deck, n: nat, k: nat)
    requires n <= 256 && ColumnDistinct(d.F, k)
    ensures ColumnDistinct(Pass(key, d, n).F, k)
    decreases n
  {
    if n > 0 {
      PassKeepsColumn(key, d, n - 1, k);
      var e := Pass(key, d, n - 1);
      SwapKeepsColumn(e.F, n - 1, Partner(key, e.F, e.index, n - 1), k);
    }
  }

  lemma {:induction false} PassesKeepColumn(key: Key, d: Deck, n: nat, k: nat)
    requires ColumnDistinct(d.F, k)
    ensures ColumnDistinct(Passes(key, d, n).F, k)
    decreases n
  {
    if n > 0 {
      PassesKeepColumn(key, d, n - 1, k);
      var e := Passes(key, d, n - 1);
      PassKeepsColumn(key, e, |e.F|, k);
    }
  }

  lemma ByteOfWiden(w: word, i: byte, k: nat)
    requires k < 4
    ensures ByteOf(AddWord(MulWord(w, 256), i), k) == if k == 0 then i else ByteOf(w, k - 1)
  {
    var a, h := w / 0x100_0000, w % 0x100_0000;
    DropTopByte(w);
    assert AddWord(MulWord(w, 256), i) == h * 256 + i;
    ShiftedByte(h, i, k);
    if k > 0 {
      LowBytes(a, h, k - 1);
    }
  }

  lemma DropTopByte(w: word)
    ensures MulWord(w, 256) == w % 0x100_0000 * 256
  {
  }

  lemma ShiftedByte(h: nat, i: byte, k: nat)
    requires k < 4 && h < 0x100_0000
    ensures ByteOf(h * 256 + i, k) == if k == 0 then i else ByteOf(h, k - 1)
  {
  }

  lemma LowBytes(a: nat, h: nat, k: nat)
    requires k < 3
    ensures ByteOf(a * 0x100_0000 + h, k) == ByteOf(h, k)
  {
    var w := a * 0x100_0000 + h;
    if k == 0 {
      SameLowByte(w, a * 65536, h);
    } else if k == 1 {
      assert w / 256 == a * 65536 + h / 256;
      SameLowByte(w / 256, a * 256, h / 256);
    } else {
      assert w / 65536 == a * 256 + h / 65536;
      SameLowByte(w / 65536, a, h / 65536);
    }
  }

  lemma WidenColumns(F: Table, k: nat)
    requires k < 4
    requires k > 0 ==> ColumnDistinct(F, k - 1)
    ensures ColumnDistinct(Widen(F), k)
  {
    forall i, j | 0 <= i < j < 256 ensures ByteOf(Widen(F)[i], k) != ByteOf(Widen(F)[j], k) {
      ByteOfWiden(F[i], i, k);
      ByteOfWiden(F[j], j, k);
    }
  }

  /** After r rounds the low r bytes of the words are r permutations of 0..255, for every key:
      the shuffling never loses or repeats a byte value. */
  lemma {:induction false} ColumnsArePermutations(key: Key, r: nat, k: nat)
    requires k < r <= ROUNDS
    ensures ColumnDistinct(Rounds(key, r), k)
    decreases r
  {
    var F := Rounds(key, r - 1);
    if k > 0 {
      ColumnsArePermutations(key, r - 1, k - 1);
    }
    WidenColumns(F, k);
    PassesKeepColumn(key, Deck(Widen(F), r - 1), SETUP_PASSES, k);
  }
}
