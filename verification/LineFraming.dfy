/** Chat lines cut out of a byte stream that arrives in arbitrary pieces, encrypted or not. */
module LineFraming {
  import opened Bits
  import opened ShuffleStream

  const NEWLINE: byte := 10
  const ACCUMULATOR_MAX_BYTES: nat := 1024

  // ---- text ----

  /** The first newline, or the length. */
  function FirstNewline(s: seq<byte>): (k: nat)
    ensures k <= |s| && NEWLINE !in s[..k]
    ensures k < |s| ==> s[k] == NEWLINE
    ensures k == |s| <==> NEWLINE !in s
  {
    if s == [] || s[0] == NEWLINE then 0 else FirstNewline(s[1..]) + 1
  }

  lemma {:induction false} FirstNewlineIs(s: seq<byte>, k: nat)
    requires k < |s| && s[k] == NEWLINE && NEWLINE !in s[..k]
    ensures FirstNewline(s) == k
  {
    if k > 0 {
      assert s[0] == s[..k][0];
      assert s[1..][..k - 1] == s[..k][1..];
      FirstNewlineIs(s[1..], k - 1);
    }
  }

  /** The part of a text up to its last newline. */
  function Complete(s: seq<byte>): seq<byte> {
    var k := FirstNewline(s);
    if k == |s| then [] else s[..k + 1] + Complete(s[k + 1..])
  }

  /** The unfinished line after it. */
  function Partial(s: seq<byte>): seq<byte> {
    var k := FirstNewline(s);
    if k == |s| then s else Partial(s[k + 1..])
  }

  /** KeyStringToVector: the non-empty lines of a text. */
  function Tokens(s: seq<byte>): seq<seq<byte>> {
    var k := FirstNewline(s);
    if k == |s| then (if s == [] then [] else [s])
    else (if k == 0 then [] else [s[..k]]) + Tokens(s[k + 1..])
  }

  predicate IsStripped(b: byte) {
    9 <= b <= 13
  }

  /** strip_whitespace without skip_spaces: white space other than the blank is left out. */
  function Strip(s: seq<byte>): seq<byte> {
    if s == [] then [] else (if IsStripped(s[0]) then [] else [s[0]]) + Strip(s[1..])
  }

  /** A text that starts with a whole line. */
  lemma TokensOfLine(line: seq<byte>, rest: seq<byte>)
    requires line != [] && line[|line| - 1] == NEWLINE && NEWLINE !in line[..|line| - 1]
    ensures Tokens(line + rest) == (if |line| == 1 then [] else [line[..|line| - 1]]) + Tokens(rest)
    ensures Tokens(line) == if |line| == 1 then [] else [line[..|line| - 1]]
  {
    var k, s := |line| - 1, line + rest;
    assert s[..k] == line[..k];
    FirstNewlineIs(s, k);
    assert s[k + 1..] == rest;
    FirstNewlineIs(line, k);
    assert line[k + 1..] == [] && Tokens([]) == [];
  }

  lemma OneLine(line: seq<byte>, rest: seq<byte>)
    requires line != [] && line[|line| - 1] == NEWLINE && NEWLINE !in line[..|line| - 1]
    ensures Complete(line + rest) == line + Complete(rest) && Partial(line + rest) == Partial(rest)
    ensures Tokens(Complete(line + rest)) == Tokens(line) + Tokens(Complete(rest))
  {
    var k, s := |line| - 1, line + rest;
    assert s[..k] == line[..k];
    FirstNewlineIs(s, k);
    assert s[k + 1..] == rest && s[..k + 1] == line;
    TokensOfLine(line, Complete(rest));
  }

  lemma NoLine(s: seq<byte>)
    requires NEWLINE !in s
    ensures Complete(s) == [] && Partial(s) == s && Tokens(Complete(s)) == []
  {
  }

  lemma {:induction false} CompleteAndPartial(s: seq<byte>)
    ensures Complete(s) + Partial(s) == s
    ensures NEWLINE !in Partial(s)
    decreases |s|
  {
    hide FirstNewline, Complete, Partial, Tokens;
    var k := FirstNewline(s);
    if k == |s| {
      NoLine(s);
      assert [] + s == s;
    } else {
      var line, r := s[..k + 1], s[k + 1..];
      assert s == line + r;
      OneLine(line, r);
      CompleteAndPartial(r);
      assert line + Complete(r) + Partial(r) == line + (Complete(r) + Partial(r));
    }
  }

  /** Only the unfinished line matters for what follows. */
  lemma {:induction false} SplitText(x: seq<byte>, y: seq<byte>)
    ensures Complete(x + y) == Complete(x) + Complete(Partial(x) + y)
    ensures Partial(x + y) == Partial(Partial(x) + y)
    ensures Tokens(Complete(x + y)) == Tokens(Complete(x)) + Tokens(Complete(Partial(x) + y))
    decreases |x|
  {
    hide FirstNewline, Tokens, Complete, Partial;
    var k := FirstNewline(x);
    if k == |x| {
      NoLine(x);
      assert [] + Complete(x + y) == Complete(x + y);
      assert [] + Tokens(Complete(x + y)) == Tokens(Complete(x + y));
    } else {
      var line, r := x[..k + 1], x[k + 1..];
      assert x == line + r && x + y == line + (r + y);
      OneLine(line, r);
      OneLine(line, r + y);
      SplitText(r, y);
      var c := Complete(Partial(r) + y);
      assert line + (Complete(r) + c) == line + Complete(r) + c;
      assert Tokens(line) + (Tokens(Complete(r)) + Tokens(c)) == Tokens(line) + Tokens(Complete(r)) + Tokens(c);
    }
  }

  // ---- what a peer does with the bytes ----

  /** Whether a command makes the peer go away, given all commands executed so far, that one
      included. */
  type Quits = seq<seq<byte>> -> bool

  datatype Session = Session(quit: bool, done: seq<seq<byte>>)

  /** Commands are executed in order until the peer is deleted. */
  function Execute(quits: Quits, x: Session, commands: seq<seq<byte>>): Session
    decreases |commands|
  {
    if commands == [] || x.quit then x
    else
      var done := x.done + [Strip(commands[0])];
      Execute(quits, Session(quits(done), done), commands[1..])
  }

  datatype Reader = Reader(encrypted: bool, stream: Stream, partial: seq<byte>, session: Session,
                           dispatched: seq<byte>)

  function Decrypted(p: Reader, chunk: seq<byte>): (Stream, seq<byte>) {
    if p.encrypted then Apply(p.stream, chunk) else (p.stream, chunk)
  }

  function Flooded(x: Session, partial: seq<byte>): Session {
    if |partial| > ACCUMULATOR_MAX_BYTES then x.(quit := true) else x
  }

  function AfterText(quits: Quits, p: Reader, stream: Stream, text: seq<byte>): Reader {
    var all := p.partial + text;
    var x := Execute(quits, p.session, Tokens(Complete(all)));
    Reader(p.encrypted, stream, Partial(all), Flooded(x, Partial(all)), p.dispatched + Complete(all))
  }

  /** One read. */
  function AfterRead(quits: Quits, p: Reader, chunk: seq<byte>): Reader {
    var (t, text) := Decrypted(p, chunk);
    AfterText(quits, p, t, text)
  }

  lemma ExecuteNothing(quits: Quits, x: Session)
    ensures Execute(quits, x, []) == x
  {
  }

  lemma {:induction false} ExecuteSplit(quits: Quits, x: Session, a: seq<seq<byte>>, b: seq<seq<byte>>)
    ensures Execute(quits, x, a + b) == Execute(quits, Execute(quits, x, a), b)
    decreases |a|
  {
    if a == [] {
      assert a + b == b;
    } else if !x.quit {
      var done := x.done + [Strip(a[0])];
      assert (a + b)[1..] == a[1..] + b;
      ExecuteSplit(quits, Session(quits(done), done), a[1..], b);
    }
  }

  lemma {:induction false} ExecuteExtends(quits: Quits, x: Session, commands: seq<seq<byte>>)
    ensures |Execute(quits, x, commands).done| >= |x.done|
    decreases |commands|
  {
    if commands != [] && !x.quit {
      var done := x.done + [Strip(commands[0])];
      ExecuteExtends(quits, Session(quits(done), done), commands[1..]);
    }
  }

  /** Dispatched bytes plus the unfinished line are always the decrypted input. */
  lemma NothingLost(quits: Quits, p: Reader, chunk: seq<byte>)
    ensures var q := AfterRead(quits, p, chunk);
            q.dispatched + q.partial == p.dispatched + p.partial + Decrypted(p, chunk).1
  {
    hide Complete, Partial, Execute, Tokens, Apply;
    var all := p.partial + Decrypted(p, chunk).1;
    CompleteAndPartial(all);
    assert p.dispatched + Complete(all) + Partial(all) == p.dispatched + (Complete(all) + Partial(all));
  }

  /** The flood check bites between two reads: the line is over-long at the first and goes on to
      its end in the second. */
  predicate CutOff(quits: Quits, p: Reader, a: seq<byte>, b: seq<byte>) {
    var all := p.partial + Decrypted(p, a).1;
    && |Partial(all)| > ACCUMULATOR_MAX_BYTES
    && !Execute(quits, p.session, Tokens(Complete(all))).quit
    && NEWLINE in Decrypted(AfterRead(quits, p, a), b).1
  }

  /** A read may be split in two anywhere, and nothing changes, exactly if the flood check does
      not bite at the split. */
  lemma ReadSplit(quits: Quits, p: Reader, a: seq<byte>, b: seq<byte>)
    ensures AfterRead(quits, AfterRead(quits, p, a), b) == AfterRead(quits, p, a + b)
            <==> !CutOff(quits, p, a, b)
  {
    hide Apply, AfterText, Execute, Partial, Complete, Tokens;
    ApplySplit(p.stream, a, b);
    ApplyLength(p.stream, a);
    var (t, x) := Decrypted(p, a);
    var (u, y) := Decrypted(AfterRead(quits, p, a), b);
    assert AfterText(quits, p, t, x).stream == t by {
      AfterTextKeeps(quits, p, t, x);
    }
    AfterTextKeeps(quits, p, t, x);
    assert Decrypted(p, a + b) == (u, x + y);
    TextSplit(quits, p, t, u, x, y);
  }

  lemma AfterTextIs(quits: Quits, p: Reader, stream: Stream, text: seq<byte>)
    ensures var all := p.partial + text;
            AfterText(quits, p, stream, text) ==
            Reader(p.encrypted, stream, Partial(all),
                   Flooded(Execute(quits, p.session, Tokens(Complete(all))), Partial(all)),
                   p.dispatched + Complete(all))
  {
  }

  lemma AfterTextKeeps(quits: Quits, p: Reader, stream: Stream, text: seq<byte>)
    ensures var q := AfterText(quits, p, stream, text); q.stream == stream && q.encrypted == p.encrypted
  {
  }

  lemma TextSplit(quits: Quits, p: Reader, t: Stream, u: Stream, x: seq<byte>, y: seq<byte>)
    ensures AfterText(quits, AfterText(quits, p, t, x), u, y) == AfterText(quits, p, u, x + y)
            <==> !(&& |Partial(p.partial + x)| > ACCUMULATOR_MAX_BYTES
                   && !Execute(quits, p.session, Tokens(Complete(p.partial + x))).quit
                   && NEWLINE in y)
  {
    hide Execute, Partial, Complete, Tokens, AfterText, Flooded;
    var all := p.partial + x;
    var part := Partial(all);
    assert p.partial + (x + y) == all + y;
    SplitText(all, y);
    var s1 := Execute(quits, p.session, Tokens(Complete(all)));
    var more := Tokens(Complete(part + y));
    ExecuteSplit(quits, p.session, Tokens(Complete(all)), more);
    assert p.dispatched + (Complete(all) + Complete(part + y)) == p.dispatched + Complete(all) + Complete(part + y);
    var q := AfterText(quits, p, t, x);
    AfterTextIs(quits, p, t, x);
    AfterTextIs(quits, q, u, y);
    AfterTextIs(quits, p, u, x + y);
    CompleteAndPartial(all);
    SessionSplit(quits, s1, part, y);
  }

  lemma SessionSplit(quits: Quits, x: Session, part: seq<byte>, y: seq<byte>)
    requires NEWLINE !in part
    ensures var more, last := Tokens(Complete(part + y)), Partial(part + y);
            Flooded(Execute(quits, Flooded(x, part), more), last) == Flooded(Execute(quits, x, more), last)
            <==> !(|part| > ACCUMULATOR_MAX_BYTES && !x.quit && NEWLINE in y)
  {
    hide Execute, Partial, Complete, Tokens;
    var more := Tokens(Complete(part + y));
    QuitStays(quits, x, more);
    if |part| > ACCUMULATOR_MAX_BYTES && !x.quit {
      AfterLongLine(quits, x, part, y);
    }
  }

  lemma QuitStays(quits: Quits, x: Session, commands: seq<seq<byte>>)
    ensures x.quit ==> Execute(quits, x, commands) == x
    ensures Execute(quits, x.(quit := true), commands) == x.(quit := true)
  {
  }

  /** An over-long line that ends is a command; one that does not end stays over-long. */
  lemma AfterLongLine(quits: Quits, x: Session, part: seq<byte>, y: seq<byte>)
    requires NEWLINE !in part && |part| > ACCUMULATOR_MAX_BYTES && !x.quit
    ensures NEWLINE in y ==> |Execute(quits, x, Tokens(Complete(part + y))).done| > |x.done|
    ensures NEWLINE !in y ==> Partial(part + y) == part + y
    ensures NEWLINE !in y ==> Execute(quits, x, Tokens(Complete(part + y))) == x
  {
    hide FirstNewline, Tokens, Complete, Partial, Execute;
    if FirstNewline(y) < |y| {
      LongLineEnds(quits, x, part, y);
    } else {
      NoLine(part + y);
      ExecuteNothing(quits, x);
    }
  }

  lemma LongLineEnds(quits: Quits, x: Session, part: seq<byte>, y: seq<byte>)
    requires NEWLINE !in part && part != [] && !x.quit && FirstNewline(y) < |y|
    ensures |Execute(quits, x, Tokens(Complete(part + y))).done| > |x.done|
  {
    hide FirstNewline, Tokens, Complete, Partial, Execute;
    var k := FirstNewline(y);
    var line, rest := part + y[..k + 1], y[k + 1..];
    LineEndsAt(part, y, k);
    OneLine(line, rest);
    TokensOfLine(line, rest);
    ExecuteFirst(quits, x, Tokens(line)[0], Tokens(Complete(rest)));
  }

  lemma LineEndsAt(part: seq<byte>, y: seq<byte>, k: nat)
    requires NEWLINE !in part && k < |y| && y[k] == NEWLINE && NEWLINE !in y[..k]
    ensures var line := part + y[..k + 1];
            && line[|line| - 1] == NEWLINE && NEWLINE !in line[..|line| - 1]
            && part + y == line + y[k + 1..]
  {
    var line := part + y[..k + 1];
    assert line[..|line| - 1] == part + y[..k];
  }

  lemma ExecuteFirst(quits: Quits, x: Session, command: seq<byte>, rest: seq<seq<byte>>)
    requires !x.quit
    ensures |Execute(quits, x, [command] + rest).done| > |x.done|
  {
    hide Strip;
    var commands := [command] + rest;
    var done := x.done + [Strip(commands[0])];
    ExecuteExtends(quits, Session(quits(done), done), commands[1..]);
  }

  // ---- many reads ----

  function Concat(chunks: seq<seq<byte>>): seq<byte> {
    if chunks == [] then [] else chunks[0] + Concat(chunks[1..])
  }

  function ReadAll(quits: Quits, p: Reader, chunks: seq<seq<byte>>): Reader
    decreases |chunks|
  {
    if chunks == [] then p else ReadAll(quits, AfterRead(quits, p, chunks[0]), chunks[1..])
  }

  /** No unfinished line is over-long after any of the reads. */
  predicate NoFlood(quits: Quits, p: Reader, chunks: seq<seq<byte>>)
    decreases |chunks|
  {
    && |p.partial| <= ACCUMULATOR_MAX_BYTES
    && (chunks == [] || NoFlood(quits, AfterRead(quits, p, chunks[0]), chunks[1..]))
  }

  /** The lines dispatched, the commands executed and the unfinished line do not depend on how
      the stream is split into reads. */
  lemma {:induction false} SplitIndependence(quits: Quits, p: Reader, chunks: seq<seq<byte>>)
    requires NEWLINE !in p.partial && NoFlood(quits, p, chunks)
    ensures ReadAll(quits, p, chunks) == AfterRead(quits, p, Concat(chunks))
    decreases |chunks|
  {
    hide AfterRead;
    if chunks == [] {
      ReadNothing(quits, p);
    } else {
      var q := AfterRead(quits, p, chunks[0]);
      PartialHasNoNewline(quits, p, chunks[0]);
      SplitIndependence(quits, q, chunks[1..]);
      assert |q.partial| <= ACCUMULATOR_MAX_BYTES;
      ReadSplit(quits, p, chunks[0], Concat(chunks[1..]));
    }
  }

  lemma ReadNothing(quits: Quits, p: Reader)
    requires NEWLINE !in p.partial && |p.partial| <= ACCUMULATOR_MAX_BYTES
    ensures AfterRead(quits, p, []) == p
  {
    assert p.partial + [] == p.partial && p.dispatched + [] == p.dispatched;
    assert Tokens([]) == [];
  }

  lemma PartialHasNoNewline(quits: Quits, p: Reader, chunk: seq<byte>)
    ensures var q := AfterRead(quits, p, chunk);
            NEWLINE !in q.partial && q.partial == Partial(p.partial + Decrypted(p, chunk).1)
  {
    CompleteAndPartial(p.partial + Decrypted(p, chunk).1);
  }

  /** An encrypting client with the same key: the commands executed are those of the text it
      meant to send, however the encrypted bytes are split. */
  lemma EncryptedChatArrives(quits: Quits, key: seq<byte>, text: seq<byte>, chunks: seq<seq<byte>>)
    requires |key| > 0 && Concat(chunks) == Apply(Keyed(key), text).1
    requires NoFlood(quits, Reader(true, Keyed(key), [], Session(false, []), []), chunks)
    ensures var q := ReadAll(quits, Reader(true, Keyed(key), [], Session(false, []), []), chunks);
            && q.dispatched == Complete(text) && q.partial == Partial(text)
            && q.session.done == Execute(quits, Session(false, []), Tokens(Complete(text))).done
  {
    hide Keyed, Apply, Execute, Complete, Partial, Tokens;
    var p := Reader(true, Keyed(key), [], Session(false, []), []);
    SplitIndependence(quits, p, chunks);
    ApplyTwice(Keyed(key), text);
    assert [] + text == text && [] + Complete(text) == Complete(text);
  }

  // ---- the peer ----

  class Peer {
    const quits: Quits
    const crypt: PeerchatCtx
    var usingEncryption: bool
    var accumulator: seq<byte>
    var deleteFlag: bool
    var commands: seq<seq<byte>>
    ghost var dispatched: seq<byte>

    constructor (quits: Quits, crypt: PeerchatCtx)
      ensures this.quits == quits && this.crypt == crypt && accumulator == [] && dispatched == []
      ensures !usingEncryption && !deleteFlag && commands == []
    {
      this.quits, this.crypt := quits, crypt;
      usingEncryption, accumulator, deleteFlag, commands, dispatched := false, [], false, [], [];
    }

    ghost predicate Valid()
      reads this
    {
      crypt.Valid() && NEWLINE !in accumulator
    }

    ghost function View(): Reader
      requires Valid()
      reads this, crypt, crypt.crypt
    {
      Reader(usingEncryption, crypt.View(), accumulator, Session(deleteFlag, commands), dispatched)
    }

    /** handle_commands */
    method HandleCommands(input: seq<byte>)
      modifies this`deleteFlag, this`commands, this`dispatched
      ensures Session(deleteFlag, commands) == Execute(quits, old(Session(deleteFlag, commands)), Tokens(input))
      ensures dispatched == old(dispatched) + input
    {
      hide Tokens, Strip;
      dispatched := dispatched + input;
      var lines := Tokens(input);
      ghost var final := Execute(quits, Session(deleteFlag, commands), lines);
      var it := 0;
      assert lines[0..] == lines;
      while it != |lines| && !deleteFlag
        invariant 0 <= it <= |lines| && dispatched == old(dispatched) + input
        invariant final == Execute(quits, Session(deleteFlag, commands), lines[it..])
      {
        assert lines[it..][1..] == lines[it + 1..];
        commands := commands + [Strip(lines[it])];
        if quits(commands) {
          deleteFlag := true;
        }
        it := it + 1;
      }
      assert lines[|lines|..] == [];
    }

    /** on_stream_read */
    method OnStreamRead(buf: seq<byte>)
      requires Valid()
      modifies this`accumulator, this`deleteFlag, this`commands, this`dispatched, crypt, crypt.crypt
      ensures Valid() && View() == AfterRead(quits, old(View()), buf)
    {
      hide Apply, Execute, Tokens, Complete, Partial, AfterText;
      ghost var before := View();
      var recv := new byte[|buf|](i requires 0 <= i < |buf| => buf[i]);
      assert recv[..] == recv[..|buf|] == buf;
      if usingEncryption {
        crypt.Crypt(recv, |buf|);
      }
      ghost var t, text := crypt.View(), recv[..|buf|];
      assert (t, text) == Decrypted(before, buf);
      CutLines(recv, |buf|);
      if |accumulator| > ACCUMULATOR_MAX_BYTES {
        deleteFlag := true;
      }
      AfterTextIs(quits, before, t, text);
    }

    /** The memchr loop. */
    method CutLines(recv: array<byte>, size: nat)
      requires Valid() && size == recv.Length
      modifies this`accumulator, this`deleteFlag, this`commands, this`dispatched
      ensures Valid()
      ensures var all := old(accumulator) + recv[..size];
              && accumulator == Partial(all)
              && dispatched == old(dispatched) + Complete(all)
              && Session(deleteFlag, commands) ==
                 Execute(quits, old(Session(deleteFlag, commands)), Tokens(Complete(all)))
    {
      hide Execute, Tokens, Complete, Partial, FirstNewline;
      ghost var all, x0, d0 := accumulator + recv[..size], Session(deleteFlag, commands), dispatched;
      var p: nat, nread: nat := 0, size;
      assert [] + Complete(all) == Complete(all);
      while nread > 0
        invariant 0 <= p && p + nread == size && Valid()
        invariant var rest := accumulator + recv[p..size];
                  Partial(all) == Partial(rest) && d0 + Complete(all) == dispatched + Complete(rest) &&
                  Execute(quits, x0, Tokens(Complete(all))) ==
                  Execute(quits, Session(deleteFlag, commands), Tokens(Complete(rest)))
      {
        var end := Memchr(recv, p, nread);
        if end < size {
          end := end + 1;
          var input := accumulator + recv[p..end];
          ghost var rest, rest' := accumulator + recv[p..size], [] + recv[end..size];
          assert rest == input + rest';
          ghost var d, x := dispatched, Session(deleteFlag, commands);
          OneLine(input, rest');
          ExecuteSplit(quits, x, Tokens(input), Tokens(Complete(rest')));
          accumulator := [];
          HandleCommands(input);
          assert d + (input + Complete(rest')) == d + input + Complete(rest');
          nread := nread - (end - p);
          p := end;
        } else {
          accumulator := accumulator + recv[p..p + nread];
          p, nread := size, 0;
          assert accumulator + recv[size..size] == accumulator;
        }
      }
      assert accumulator + recv[p..size] == accumulator;
      NoLine(accumulator);
      ExecuteNothing(quits, Session(deleteFlag, commands));
      assert dispatched + [] == dispatched;
    }
  }

  /** memchr for a newline; the size is returned for a null pointer. */
  method Memchr(a: array<byte>, from: nat, n: nat) returns (end: nat)
    requires from + n <= a.Length
    ensures from <= end <= from + n && NEWLINE !in a[from..end]
    ensures end < from + n ==> a[end] == NEWLINE
  {
    end := from;
    while end < from + n && a[end] != NEWLINE
      invariant from <= end <= from + n && NEWLINE !in a[from..end]
    {
      end := end + 1;
      assert a[from..end] == a[from..end - 1] + [a[end - 1]];
    }
  }

  /** Any number of reads without a flood leaves the peer as one read of everything would. */
  method Feed(peer: Peer, chunks: seq<seq<byte>>)
    requires peer.Valid() && NoFlood(peer.quits, peer.View(), chunks)
    modifies peer, peer.crypt, peer.crypt.crypt
    ensures peer.Valid() && peer.View() == AfterRead(peer.quits, old(peer.View()), Concat(chunks))
  {
    hide AfterRead;
    SplitIndependence(peer.quits, peer.View(), chunks);
    ghost var final := ReadAll(peer.quits, peer.View(), chunks);
    assert chunks[0..] == chunks;
    for n := 0 to |chunks|
      invariant peer.Valid() && ReadAll(peer.quits, peer.View(), chunks[n..]) == final
    {
      assert chunks[n..][1..] == chunks[n + 1..];
      peer.OnStreamRead(chunks[n]);
    }
  }

  // ---- the lines of a text, written out ----

  /** Lines, each with its newline. */
  function Joined(lines: seq<seq<byte>>): seq<byte> {
    if lines == [] then [] else lines[0] + [10] + Joined(lines[1..])
  }

  function NonEmpty(lines: seq<seq<byte>>): seq<seq<byte>> {
    if lines == [] then [] else (if lines[0] == [] then [] else [lines[0]]) + NonEmpty(lines[1..])
  }

  lemma {:induction false} TokensOfJoined(lines: seq<seq<byte>>, rest: seq<byte>)
    requires (forall i :: 0 <= i < |lines| ==> 10 !in lines[i]) && 10 !in rest
    ensures Tokens(Complete(Joined(lines) + rest)) == NonEmpty(lines)
    ensures Partial(Joined(lines) + rest) == rest
    decreases |lines|
  {
    hide Tokens, Complete, Partial;
    if lines == [] {
      assert [] + rest == rest;
      NoLine(rest);
    } else {
      var line, more := lines[0] + [10], Joined(lines[1..]) + rest;
      assert lines[0] + [10] + Joined(lines[1..]) + rest == line + more;
      assert line[..|line| - 1] == lines[0];
      OneLine(line, more);
      TokensOfLine(line, []);
      TokensOfJoined(lines[1..], rest);
    }
  }

  /** Without encryption, and while nothing makes the peer quit, one read of some lines and an
      unfinished one executes the non-empty lines in order, stripped; the peer is deleted
      exactly if the unfinished line has more than 1024 bytes. */
  lemma LinesExecuted(quits: Quits, p: Reader, lines: seq<seq<byte>>, rest: seq<byte>)
    requires !p.encrypted && p.partial == [] && !p.session.quit && (forall done :: !quits(done))
    requires (forall i :: 0 <= i < |lines| ==> 10 !in lines[i]) && 10 !in rest
    ensures var q := AfterRead(quits, p, Joined(lines) + rest);
            && q.partial == rest && |q.session.done| == |p.session.done| + |NonEmpty(lines)|
            && (forall i :: 0 <= i < |NonEmpty(lines)| ==>
                  q.session.done[|p.session.done| + i] == Strip(NonEmpty(lines)[i]))
            && (q.session.quit <==> |rest| > 1024)
  {
    hide Tokens, Complete, Partial, Execute, NonEmpty, Joined, Strip;
    TokensOfJoined(lines, rest);
    var all := Joined(lines) + rest;
    assert [] + all == all;
    AllExecuted(quits, p.session, NonEmpty(lines));
  }

  lemma {:induction false} AllExecuted(quits: Quits, x: Session, commands: seq<seq<byte>>)
    requires !x.quit && (forall done :: !quits(done))
    ensures var y := Execute(quits, x, commands);
            && !y.quit && |y.done| == |x.done| + |commands| && y.done[..|x.done|] == x.done
            && forall i :: 0 <= i < |commands| ==> y.done[|x.done| + i] == Strip(commands[i])
    decreases |commands|
  {
    hide Strip;
    if commands != [] {
      var done := x.done + [Strip(commands[0])];
      var y := Execute(quits, x, commands);
      AllExecuted(quits, Session(quits(done), done), commands[1..]);
      assert y.done[..|x.done|] == y.done[..|done|][..|x.done|];
      assert y.done[|x.done|] == y.done[..|done|][|x.done|];
      forall i | 0 <= i < |commands| ensures y.done[|x.done| + i] == Strip(commands[i]) {
        if i > 0 {
          assert commands[i] == commands[1..][i - 1];
        }
      }
    }
  }

  /** A carriage return at the end of a line is stripped, and blanks stay. */
  lemma {:induction false} ReturnStripped(line: seq<byte>)
    requires forall i :: 0 <= i < |line| ==> line[i] < 9 || line[i] > 13
    ensures Strip(line + [13]) == line && Strip(line) == line
    decreases |line|
  {
    if line == [] {
      assert Strip([13]) == [] + Strip([13][1..]);
      assert [13][1..] == [];
      assert [] + [13] == [13];
    } else {
      ReturnStripped(line[1..]);
      assert (line + [13])[1..] == line[1..] + [13] && (line + [13])[0] == line[0];
    }
  }
}
