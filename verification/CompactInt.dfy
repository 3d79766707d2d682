/** The compact integers and length-prefixed strings of the UT master protocol. */
module CompactInt {
  import opened Bits

  const INT_LIMIT: int := 0x8000_0000

  /** The bytes of a buffer with its read cursor. */
  class Buffer {
    var data: seq<byte>
    var cursor: nat

    constructor (bytes: seq<byte>)
      ensures data == bytes && cursor == 0
    {
      data, cursor := bytes, 0;
    }

    method WriteByte(b: byte)
      modifies this`data
      ensures data == old(data) + [b]
    {
      data := data + [b];
    }

    method WriteBuffer(bs: seq<byte>)
      modifies this`data
      ensures data == old(data) + bs
    {
      data := data + bs;
    }

    /** At the end of the buffer a read gives 0 and moves nothing. */
    method ReadByte() returns (b: byte)
      requires cursor <= |data|
      modifies this`cursor
      ensures cursor <= |data|
      ensures b == ByteAt(data, old(cursor)) && cursor == Past(data, old(cursor))
    {
      if cursor == |data| {
        return 0;
      }
      b := data[cursor];
      cursor := cursor + 1;
    }
  }

  function ByteAt(data: seq<byte>, at: nat): byte
    requires at <= |data|
  {
    if at == |data| then 0 else data[at]
  }

  function Past(data: seq<byte>, at: nat): (next: nat)
    requires at <= |data|
    ensures at <= next <= |data|
  {
    if at == |data| then at else at + 1
  }

  function Abs(v: int): nat {
    if v >= 0 then v else -v
  }

  // ---- writing an integer ----

  /** Seven bits, with the high bit when there are more. */
  function GroupByte(v: nat): byte {
    if v < 0x80 then v else v % 0x80 + 0x80
  }

  /** One continuation byte and those after it: seven bits each, the high bit for more, except
      that the last of the four is written whole. */
  function Tail(v: nat, left: nat): seq<byte>
    decreases left
  {
    if left == 0 then [v % 256]
    else [GroupByte(v)] + if v < 0x80 then [] else Tail(v / 0x80, left - 1)
  }

  function FirstByte(value: int): byte {
    (if value >= 0 then 0 else 0x80) + if Abs(value) < 0x40 then Abs(value) else Abs(value) % 0x40 + 0x40
  }

  /** Sign bit, continuation bit and six bits first. */
  function Encoded(value: int): seq<byte> {
    [FirstByte(value)] + if Abs(value) < 0x40 then [] else Tail(Abs(value) / 0x40, 3)
  }

  method WriteCompactInt(buffer: Buffer, value: int)
    requires -INT_LIMIT < value < INT_LIMIT
    modifies buffer`data
    ensures buffer.data == old(buffer.data) + Encoded(value)
  {
    hide Tail, FirstByte, GroupByte, Abs, Encoded;
    ghost var before := buffer.data;
    FirstByteHolds(value);
    EncodedIs(value, before);
    var absVal: nat := Abs(value);
    var b0 := FirstByte(value);
    buffer.WriteByte(b0);
    if b0 / 0x40 % 2 == 1 {
      absVal := absVal / 0x40;
      ghost var all := buffer.data + Tail(absVal, 3);
      TailStep(absVal, 3, buffer.data);
      var b1 := GroupByte(absVal);
      buffer.WriteByte(b1);
      if b1 >= 0x80 {
        absVal := absVal / 0x80;
        assert buffer.data + Tail(absVal, 2) == all;
        TailStep(absVal, 2, buffer.data);
        var b2 := GroupByte(absVal);
        buffer.WriteByte(b2);
        if b2 >= 0x80 {
          absVal := absVal / 0x80;
          assert buffer.data + Tail(absVal, 1) == all;
          TailStep(absVal, 1, buffer.data);
          var b3 := GroupByte(absVal);
          buffer.WriteByte(b3);
          if b3 >= 0x80 {
            absVal := absVal / 0x80;
            assert buffer.data + Tail(absVal, 0) == all;
            TailStep(absVal, 0, buffer.data);
            var b4: byte := absVal % 256;
            buffer.WriteByte(b4);
          }
        }
      }
      assert buffer.data == all;
    }
  }

  lemma EncodedIs(value: int, before: seq<byte>)
    ensures before + Encoded(value) ==
            if Abs(value) < 0x40 then before + [FirstByte(value)]
            else before + [FirstByte(value)] + Tail(Abs(value) / 0x40, 3)
  {
    hide Tail, FirstByte, Abs;
    var b: seq<byte> := [FirstByte(value)];
    assert b + [] == b && before + (b + Tail(Abs(value) / 0x40, 3)) == before + b + Tail(Abs(value) / 0x40, 3);
  }

  /** The byte that comes next in a tail, after what has been written. */
  lemma TailStep(v: nat, left: nat, written: seq<byte>)
    ensures written + Tail(v, left) ==
            if left == 0 then written + [v % 256]
            else if v < 0x80 then written + [GroupByte(v)] else written + [GroupByte(v)] + Tail(v / 0x80, left - 1)
    ensures GroupByte(v) >= 0x80 <==> v >= 0x80
  {
    if left > 0 && v >= 0x80 {
      assert Tail(v, left) == [GroupByte(v)] + Tail(v / 0x80, left - 1);
    } else if left > 0 {
      assert [GroupByte(v)] + [] == [GroupByte(v)];
    }
  }

  // ---- reading an integer ----

  /** A 32-bit signed value. */
  function Wrap(v: int): int {
    (v + INT_LIMIT) % (2 * INT_LIMIT) - INT_LIMIT
  }

  lemma WrapSmall(v: int)
    requires -INT_LIMIT <= v < INT_LIMIT
    ensures Wrap(v) == v
  {
  }

  lemma WrapTwiceNegated(a: int)
    requires 0 < a < INT_LIMIT
    ensures Wrap(2 * a) != -a
  {
  }

  function SignedByte(b: byte): int {
    if b < 0x80 then b else b - 0x100
  }

  /** Seven more bits below a value. */
  function Shifted(v: int, b: byte): int {
    Wrap(v * 0x80 + b % 0x80)
  }

  /** The value of the continuation bytes from a position on, and the position after them. */
  function TailAt(data: seq<byte>, at: nat, left: nat): (r: (int, nat))
    requires at <= |data|
    ensures at <= r.1 <= |data|
    decreases left
  {
    var b, next := ByteAt(data, at), Past(data, at);
    if left == 0 then (SignedByte(b), next)
    else if b >= 0x80 then var (v, n) := TailAt(data, next, left - 1); (Shifted(v, b), n)
    else (b, next)
  }

  function IntAt(data: seq<byte>, at: nat): (r: (int, nat))
    requires at <= |data|
    ensures at <= r.1 <= |data|
  {
    var b, next := ByteAt(data, at), Past(data, at);
    var (v, n) := if b / 0x40 % 2 == 1 then TailAt(data, next, 3) else (0, next);
    var value := Wrap(v * 0x40 + b % 0x40);
    (if b >= 0x80 then Wrap(value * 2) else value, n)
  }

  method ReadCompactInt(buffer: Buffer) returns (value: int)
    requires buffer.cursor <= |buffer.data|
    modifies buffer`cursor
    ensures buffer.cursor <= |buffer.data|
    ensures (value, buffer.cursor) == IntAt(buffer.data, old(buffer.cursor))
  {
    hide Wrap, Shifted, SignedByte, TailAt;
    ghost var data := buffer.data;
    value := 0;
    var b0 := buffer.ReadByte();
    if b0 / 0x40 % 2 == 1 {
      ghost var at1 := buffer.cursor;
      TailAtUnfolds(data, at1, 3);
      var b1 := buffer.ReadByte();
      if b1 >= 0x80 {
        TailAtUnfolds(data, buffer.cursor, 2);
        var b2 := buffer.ReadByte();
        if b2 >= 0x80 {
          TailAtUnfolds(data, buffer.cursor, 1);
          var b3 := buffer.ReadByte();
          if b3 >= 0x80 {
            TailAtUnfolds(data, buffer.cursor, 0);
            var b4 := buffer.ReadByte();
            value := SignedByte(b4);
          }
          value := Shifted(value, b3);
        }
        value := Shifted(value, b2);
      }
      value := Shifted(value, b1);
      assert (value, buffer.cursor) == TailAt(data, at1, 3);
    }
    value := Wrap(value * 0x40 + b0 % 0x40);
    if b0 >= 0x80 {
      value := Wrap(value * 2);
    }
  }

  /** One continuation byte.  Without the high bit it ends the value, like a shift of zero. */
  lemma TailAtUnfolds(data: seq<byte>, at: nat, left: nat)
    requires at <= |data|
    ensures var b, next := ByteAt(data, at), Past(data, at);
            TailAt(data, at, left) ==
            if left == 0 then (SignedByte(b), next)
            else if b >= 0x80 then
              var r := TailAt(data, next, left - 1); (Shifted(r.0, b), r.1)
            else (Shifted(0, b), next)
  {
  }

  // ---- an integer read back ----

  /** `part` is in the data at a position. */
  predicate IsAt(data: seq<byte>, at: nat, part: seq<byte>) {
    at + |part| <= |data| && data[at..at + |part|] == part
  }

  lemma IsAtSplit(data: seq<byte>, at: nat, front: seq<byte>, back: seq<byte>)
    requires IsAt(data, at, front + back)
    ensures IsAt(data, at, front) && IsAt(data, at + |front|, back)
  {
    var part := front + back;
    assert data[at..at + |front|] == part[..|front|] == front;
    assert data[at + |front|..at + |part|] == part[|front|..] == back;
  }

  lemma ReadOneByte(data: seq<byte>, at: nat, b: byte)
    requires IsAt(data, at, [b])
    ensures ByteAt(data, at) == b && Past(data, at) == at + 1
  {
    assert data[at..at + 1][0] == b;
  }

  /** What n continuation bytes and a last one of four bits can hold. */
  function Room(left: nat): nat {
    if left == 0 then 16 else 0x80 * Room(left - 1)
  }

  lemma ShiftBack(v: nat, b: byte)
    requires v < INT_LIMIT && b == v % 0x80 + 0x80
    ensures Shifted(v / 0x80, b) == v
  {
    WrapSmall(v);
    assert b % 0x80 == v % 0x80 && v / 0x80 * 0x80 + v % 0x80 == v;
  }

  lemma GroupHolds(v: nat, room: nat)
    requires 0x80 <= v < 0x80 * room
    ensures GroupByte(v) == v % 0x80 + 0x80 && v / 0x80 < room
  {
  }

  lemma TailLast(v: nat, left: nat)
    requires if left == 0 then v < 16 else v < 0x80
    ensures Tail(v, left) == [v] && SignedByte(v) == v && Shifted(0, v) == v
  {
    WrapSmall(v);
  }

  lemma {:induction false} TailReadBack(data: seq<byte>, at: nat, v: nat, left: nat)
    requires v < Room(left) && Room(left) <= INT_LIMIT && IsAt(data, at, Tail(v, left))
    ensures TailAt(data, at, left) == (v, at + |Tail(v, left)|)
    ensures |Tail(v, left)| <= left + 1
    decreases left
  {
    hide Shifted, Wrap, GroupByte, IsAt, ByteAt, Past, SignedByte;
    if left == 0 || v < 0x80 {
      TailLast(v, left);
      ReadOneByte(data, at, v);
    } else {
      var b := GroupByte(v);
      GroupHolds(v, Room(left - 1));
      IsAtSplit(data, at, [b], Tail(v / 0x80, left - 1));
      ReadOneByte(data, at, b);
      TailReadBack(data, at + 1, v / 0x80, left - 1);
      ShiftBack(v, b);
    }
  }

  /** Reading an encoded integer of either sign: the value comes back exactly when it is not
      negative, for a negative one gives twice its absolute value; in both cases exactly the
      bytes written are consumed, five at most. */
  lemma IntReadBack(data: seq<byte>, at: nat, value: int)
    requires -INT_LIMIT < value < INT_LIMIT && IsAt(data, at, Encoded(value))
    ensures IntAt(data, at) == (if value >= 0 then value else Wrap(-2 * value), at + |Encoded(value)|)
    ensures IntAt(data, at).0 == value <==> value >= 0
    ensures 1 <= |Encoded(value)| <= 5
  {
    hide Tail, TailAt, Room, Wrap, FirstByte, IntAt, IsAt, ByteAt, Past;
    var a, b := Abs(value), FirstByte(value);
    var rest := if a < 0x40 then [] else Tail(a / 0x40, 3);
    IsAtSplit(data, at, [b], rest);
    ReadOneByte(data, at, b);
    RoomForWord();
    FirstByteHolds(value);
    if a >= 0x40 {
      TailReadBack(data, at + 1, a / 0x40, 3);
    }
    JoinsSix(data, at, a);
    WrapSmall(a);
    if value < 0 {
      WrapTwiceNegated(a);
    }
  }

  lemma FirstByteHolds(value: int)
    ensures var a, b := Abs(value), FirstByte(value);
            b % 0x40 == a % 0x40 && (b >= 0x80 <==> value < 0) && (b / 0x40 % 2 == 1 <==> a >= 0x40)
  {
  }

  lemma JoinsSix(data: seq<byte>, at: nat, a: nat)
    requires at <= |data| && ByteAt(data, at) % 0x40 == a % 0x40
    requires ByteAt(data, at) / 0x40 % 2 == 1 <==> a >= 0x40
    requires a >= 0x40 ==> TailAt(data, Past(data, at), 3).0 == a / 0x40
    ensures IntAt(data, at).0 == if ByteAt(data, at) >= 0x80 then Wrap(Wrap(a) * 2) else Wrap(a)
    ensures IntAt(data, at).1 == if a >= 0x40 then TailAt(data, Past(data, at), 3).1 else Past(data, at)
  {
    hide TailAt, Wrap;
    assert a / 0x40 * 0x40 + a % 0x40 == a;
  }

  lemma RoomForWord()
    ensures Room(3) == INT_LIMIT / 0x40
  {
    assert Room(1) == 0x80 * Room(0);
    assert Room(2) == 0x80 * Room(1);
  }

  // ---- strings ----

  const ESC: byte := 0x1b

  /** The characters from index i of a string of the given length, and the position after them.
      A final NUL ends the string; with colour skipping an escape and the three bytes after it
      are left out. */
  function CharsAt(data: seq<byte>, at: nat, i: nat, length: nat, skipColours: bool): (r: (seq<byte>, nat))
    requires at <= |data|
    ensures at <= r.1 <= |data|
    decreases length - i
  {
    if i >= length then ([], at)
    else
      var ch, next := ByteAt(data, at), Past(data, at);
      if i == length - 1 && ch == 0 then ([], next)
      else if skipColours && ch == ESC then
        CharsAt(data, Past(data, Past(data, Past(data, next))), i + 4, length, skipColours)
      else var (s, n) := CharsAt(data, next, i + 1, length, skipColours); ([ch] + s, n)
  }

  /** A string whose length does not fit in what is left, or is negative, is read as empty. */
  function StringAt(data: seq<byte>, at: nat, skipColours: bool): (r: (seq<byte>, nat))
    requires at <= |data|
    ensures at <= r.1 <= |data|
  {
    var (length, next) := IntAt(data, at);
    if 0 <= length <= |data| - next then CharsAt(data, next, 0, length, skipColours) else ([], next)
  }

  method ReadFString(buffer: Buffer, skipColours: bool) returns (result: seq<byte>)
    requires buffer.cursor <= |buffer.data|
    modifies buffer`cursor
    ensures buffer.cursor <= |buffer.data|
    ensures (result, buffer.cursor) == StringAt(buffer.data, old(buffer.cursor), skipColours)
  {
    hide *;
    result := [];
    var length := ReadCompactInt(buffer);
    ghost var start := buffer.cursor;
    StringAtIs(buffer.data, old(buffer.cursor), skipColours);
    if 0 <= length <= |buffer.data| - buffer.cursor {
      ghost var whole := CharsAt(buffer.data, buffer.cursor, 0, length, skipColours);
      var i := 0;
      assert [] + whole.0 == whole.0;
      while i < length
        invariant 0 <= i && buffer.cursor <= |buffer.data|
        invariant var rest := CharsAt(buffer.data, buffer.cursor, i, length, skipColours);
                  whole == (result + rest.0, rest.1)
      {
        CharsAtStep(buffer.data, buffer.cursor, i, length, skipColours);
        var ch := buffer.ReadByte();
        if i == length - 1 && ch == 0 {
          assert result + [] == result;
          break;
        }
        if skipColours && ch == ESC {
          i := i + 3;
          var _ := buffer.ReadByte();
          var _ := buffer.ReadByte();
          var _ := buffer.ReadByte();
        } else {
          ghost var rest := CharsAt(buffer.data, buffer.cursor, i + 1, length, skipColours).0;
          assert result + ([ch] + rest) == result + [ch] + rest;
          result := result + [ch];
        }
        i := i + 1;
      }
      CharsAtStep(buffer.data, buffer.cursor, i, length, skipColours);
      assert result + [] == result;
    }
  }

  lemma CharsAtStep(data: seq<byte>, at: nat, i: nat, length: nat, skipColours: bool)
    requires at <= |data|
    ensures var ch, next := ByteAt(data, at), Past(data, at);
            CharsAt(data, at, i, length, skipColours) ==
            if i >= length then ([], at)
            else if i == length - 1 && ch == 0 then ([], next)
            else if skipColours && ch == ESC then
              CharsAt(data, Past(data, Past(data, Past(data, next))), i + 4, length, skipColours)
            else var r := CharsAt(data, next, i + 1, length, skipColours); ([ch] + r.0, r.1)
  {
  }

  lemma StringAtIs(data: seq<byte>, at: nat, skipColours: bool)
    requires at <= |data|
    ensures var (length, next) := IntAt(data, at);
            StringAt(data, at, skipColours) ==
            if 0 <= length <= |data| - next then CharsAt(data, next, 0, length, skipColours) else ([], next)
  {
    hide IntAt, CharsAt;
  }

  function EncodedString(s: seq<byte>): seq<byte> {
    Encoded(|s| + 1) + s + [0]
  }

  method WriteFString(input: seq<byte>, buffer: Buffer)
    requires |input| + 1 < INT_LIMIT
    modifies buffer`data
    ensures buffer.data == old(buffer.data) + EncodedString(input)
  {
    WriteCompactInt(buffer, |input| + 1);
    buffer.WriteBuffer(input + [0]);
  }

  /** Without an escape, or with colours kept, the characters come back. */
  lemma {:induction false} CharsReadBack(data: seq<byte>, at: nat, i: nat, s: seq<byte>, skipColours: bool)
    requires i <= |s| && IsAt(data, at, s[i..] + [0])
    requires skipColours ==> ESC !in s
    ensures CharsAt(data, at, i, |s| + 1, skipColours) == (s[i..], at + |s| + 1 - i)
    decreases |s| - i
  {
    if i == |s| {
      assert s[i..] + [0] == [0];
      ReadOneByte(data, at, 0);
    } else {
      var back := s[i + 1..] + [0];
      assert s[i..] + [0] == [s[i]] + back;
      IsAtSplit(data, at, [s[i]], back);
      ReadOneByte(data, at, s[i]);
      CharsReadBack(data, at + 1, i + 1, s, skipColours);
      assert s[i..] == [s[i]] + s[i + 1..];
    }
  }

  lemma {:induction false} CharsBound(data: seq<byte>, at: nat, i: nat, length: nat, skipColours: bool)
    requires at <= |data|
    ensures |CharsAt(data, at, i, length, skipColours).0| <= if i < length then length - i else 0
    decreases length - i
  {
    if i < length {
      var next := Past(data, at);
      if skipColours && ByteAt(data, at) == ESC {
        CharsBound(data, Past(data, Past(data, Past(data, next))), i + 4, length, skipColours);
      } else {
        CharsBound(data, next, i + 1, length, skipColours);
      }
    }
  }

  /** Skipping colours, a string with an escape in it comes back shorter. */
  lemma {:induction false} EscapeShortens(data: seq<byte>, at: nat, i: nat, s: seq<byte>)
    requires i <= |s| && IsAt(data, at, s[i..] + [0]) && ESC in s[i..]
    ensures |CharsAt(data, at, i, |s| + 1, true).0| < |s| - i
    decreases |s| - i
  {
    var back := s[i + 1..] + [0];
    assert s[i..] + [0] == [s[i]] + back;
    IsAtSplit(data, at, [s[i]], back);
    ReadOneByte(data, at, s[i]);
    if s[i] == ESC {
      CharsBound(data, Past(data, Past(data, Past(data, at + 1))), i + 4, |s| + 1, true);
    } else {
      assert s[i..] == [s[i]] + s[i + 1..];
      EscapeShortens(data, at + 1, i + 1, s);
    }
  }

  /** A written string, embedded NULs included, is read back, and exactly its bytes consumed,
      when colours are kept; when they are skipped, exactly if it has no escape. */
  lemma StringReadBack(data: seq<byte>, at: nat, s: seq<byte>, skipColours: bool)
    requires |s| + 1 < INT_LIMIT && IsAt(data, at, EncodedString(s))
    ensures !skipColours || ESC !in s ==> StringAt(data, at, skipColours) == (s, at + |EncodedString(s)|)
    ensures StringAt(data, at, skipColours).0 == s <==> !skipColours || ESC !in s
  {
    hide IntAt, CharsAt, Encoded, StringAt;
    var n := |s| + 1;
    assert EncodedString(s) == Encoded(n) + (s + [0]);
    IsAtSplit(data, at, Encoded(n), s + [0]);
    IntReadBack(data, at, n);
    StringAtIs(data, at, skipColours);
    var next := at + |Encoded(n)|;
    assert s[0..] == s;
    if !skipColours || ESC !in s {
      CharsReadBack(data, next, 0, s, skipColours);
    } else {
      EscapeShortens(data, next, 0, s);
    }
  }

  // ---- sequences of items ----

  datatype Item = Number(value: int) | Text(chars: seq<byte>)

  predicate Writable(item: Item) {
    match item
    case Number(v) => 0 <= v < INT_LIMIT
    case Text(s) => |s| + 1 < INT_LIMIT
  }

  function EncodedItem(item: Item): seq<byte> {
    match item
    case Number(v) => Encoded(v)
    case Text(s) => EncodedString(s)
  }

  function EncodedItems(items: seq<Item>): seq<byte> {
    if items == [] then [] else EncodedItem(items[0]) + EncodedItems(items[1..])
  }

  lemma {:induction false} EncodedItemsSnoc(items: seq<Item>, item: Item)
    ensures EncodedItems(items + [item]) == EncodedItems(items) + EncodedItem(item)
  {
    hide EncodedItem;
    if items == [] {
      assert items + [item] == [item] && [item][1..] == [];
      assert EncodedItems([item]) == EncodedItem(item) + [] == [] + EncodedItem(item);
    } else {
      assert (items + [item])[0] == items[0];
      EncodedItemsSnoc(items[1..], item);
      assert (items + [item])[1..] == items[1..] + [item];
    }
  }

  /** Any sequence of non-negative integers and strings written to a buffer and read back, given
      the kinds to expect, comes back whole, and the reader ends exactly where the writer did. */
  method WriteAndReadBack(items: seq<Item>) returns (got: seq<Item>, wire: seq<byte>, consumed: nat)
    requires forall i :: 0 <= i < |items| ==> Writable(items[i])
    ensures got == items && consumed == |wire|
  {
    hide Encoded, EncodedString, IntAt, StringAt, EncodedItems;
    var out := new Buffer([]);
    NothingToWrite(items);
    for n := 0 to |items|
      invariant out.data == EncodedItems(items[..n])
    {
      match items[n] {
        case Number(v) => WriteCompactInt(out, v);
        case Text(s) => WriteFString(s, out);
      }
      assert items[..n + 1] == items[..n] + [items[n]];
      EncodedItemsSnoc(items[..n], items[n]);
    }
    assert items[..|items|] == items == items[0..];
    wire := out.data;
    var input := new Buffer(wire);
    got := [];
    assert wire[0..] == wire;
    for n := 0 to |items|
      invariant input.data == wire && input.cursor <= |wire|
      invariant wire[input.cursor..] == EncodedItems(items[n..])
      invariant got == items[..n]
    {
      ghost var at := input.cursor;
      NextItemIsAt(wire, at, items, n);
      match items[n] {
        case Number(v) =>
          var x := ReadCompactInt(input);
          IntReadBack(wire, at, v);
          got := got + [Number(x)];
        case Text(s) =>
          var x := ReadFString(input, false);
          StringReadBack(wire, at, s, false);
          got := got + [Text(x)];
      }
    }
    consumed := input.cursor;
  }

  lemma NothingToWrite(items: seq<Item>)
    ensures EncodedItems(items[..0]) == [] && EncodedItems(items[|items|..]) == []
  {
  }

  lemma NextItemIsAt(wire: seq<byte>, at: nat, items: seq<Item>, n: nat)
    requires at <= |wire| && n < |items| && wire[at..] == EncodedItems(items[n..])
    ensures IsAt(wire, at, EncodedItem(items[n]))
    ensures var next := at + |EncodedItem(items[n])|; wire[next..] == EncodedItems(items[n + 1..])
  {
    var e, rest := EncodedItem(items[n]), EncodedItems(items[n + 1..]);
    assert items[n..][1..] == items[n + 1..];
    assert wire[at..] == e + rest;
    assert wire[at..at + |e|] == wire[at..][..|e|] == e;
    assert wire[at + |e|..] == wire[at..][|e|..] == rest;
  }

  // ---- the format ----

  /** The bytes of an integer: the sign and a mark for more in the two top bits of the first, then
      six, seven, seven and seven bits of the absolute value, lowest first, each later byte with
      a mark for more, and the rest in a fifth. */
  lemma EncodedForm(value: int)
    requires -INT_LIMIT < value < INT_LIMIT
    ensures var a, b := if value < 0 then -value else value, Encoded(value);
            && |b| == (if a < 0x40 then 1 else if a < 0x2000 then 2 else if a < 0x10_0000 then 3
                       else if a < 0x800_0000 then 4 else 5)
            && b[0] == a % 64 + (if |b| > 1 then 64 else 0) + (if value < 0 then 128 else 0)
            && (|b| > 1 ==> b[1] == a / 64 % 128 + if |b| > 2 then 128 else 0)
            && (|b| > 2 ==> b[2] == a / 0x2000 % 128 + if |b| > 3 then 128 else 0)
            && (|b| > 3 ==> b[3] == a / 0x10_0000 % 128 + if |b| > 4 then 128 else 0)
            && (|b| > 4 ==> b[4] == a / 0x800_0000)
  {
    var a: nat := Abs(value);
    if a >= 0x40 {
      TailForm(a / 0x40);
      Quotients(a);
    }
    hide Tail;
  }

  lemma Quotients(a: nat)
    ensures a / 64 / 128 == a / 0x2000 && a / 64 / 0x4000 == a / 0x10_0000 && a / 64 / 0x20_0000 == a / 0x800_0000
  {
  }

  lemma TailForm(v: nat)
    requires v < 0x200_0000
    ensures var t := Tail(v, 3);
            && |t| == (if v < 0x80 then 1 else if v < 0x4000 then 2 else if v < 0x20_0000 then 3 else 4)
            && t[0] == v % 128 + (if |t| > 1 then 128 else 0)
            && (|t| > 1 ==> t[1] == v / 128 % 128 + if |t| > 2 then 128 else 0)
            && (|t| > 2 ==> t[2] == v / 0x4000 % 128 + if |t| > 3 then 128 else 0)
            && (|t| > 3 ==> t[3] == v / 0x20_0000)
  {
    assert v / 128 / 128 == v / 0x4000 && v / 128 / 128 / 128 == v / 0x20_0000;
    TailStep(v, 3, []);
    TailStep(v / 128, 2, []);
    TailStep(v / 128 / 128, 1, []);
    TailStep(v / 128 / 128 / 128, 0, []);
    hide Tail;
  }

  /** A string of six bytes that starts with a colour: the escape and three bytes are left out, and
      so is the final NUL. */
  lemma ColourLeftOut(c1: byte, c2: byte, c3: byte, x: byte)
    requires x != 0 && x != 0x1b
    ensures StringAt([6, 0x1b, c1, c2, c3, x, 0], 0, true) == ([x], 7)
  {
    var data := [6, 0x1b, c1, c2, c3, x, 0];
    assert IntAt(data, 0) == (6, 1);
    assert CharsAt(data, 6, 5, 6, true) == ([], 7);
    assert CharsAt(data, 5, 4, 6, true) == ([x] + [], 7) && [x] + [] == [x];
    assert CharsAt(data, 1, 0, 6, true) == CharsAt(data, 5, 4, 6, true);
  }
}
