/** Delimited key/value strings, with binary values whose length an earlier key gives. */
module KeyValue {
  import opened Bits
  import opened Decimals

  type Text = seq<byte>

  datatype Pair = Pair(key: Text, value: Text)

  // ---- string streams ----

  datatype Stream = Stream(text: Text, pos: nat, eof: bool, fail: bool)

  predicate InText(st: Stream) {
    st.pos <= |st.text|
  }

  /** The first delimiter from a position on, or the length. */
  function NextDelim(s: Text, from: nat, delim: byte): (k: nat)
    requires from <= |s|
    ensures from <= k <= |s| && delim !in s[from..k] && (k < |s| ==> s[k] == delim)
    decreases |s| - from
  {
    if from == |s| || s[from] == delim then from
    else
      var k := NextDelim(s, from + 1, delim);
      assert s[from..k] == [s[from]] + s[from + 1..k];
      k
  }

  /** std::getline: the stream afterwards, whether something was read, and the line.  A line ends
      at the delimiter, which is consumed, or at the end of the text; a call with nothing left
      fails, and clears the line unless the end had been seen before. */
  function GetLine(st: Stream, delim: byte, line: Text): (r: (Stream, bool, Text))
    requires InText(st)
    ensures InText(r.0) && r.0.text == st.text && r.0.pos >= st.pos
    ensures r.1 ==> r.0.pos > st.pos && !r.0.fail
  {
    if st.eof || st.fail then (st.(fail := true), false, line)
    else if st.pos == |st.text| then (st.(eof := true, fail := true), false, [])
    else
      var k := NextDelim(st.text, st.pos, delim);
      if k == |st.text| then (st.(pos := k, eof := true), true, st.text[st.pos..])
      else (st.(pos := k + 1), true, st.text[st.pos..k])
  }

  function Junk(n: nat, from: nat, junk: nat -> byte): (s: Text)
    ensures |s| == n
  {
    if n == 0 then [] else [junk(from)] + Junk(n - 1, from + 1, junk)
  }

  /** read into a fresh buffer: where the text is too short, the buffer keeps what was in it. */
  function ReadBytes(st: Stream, n: nat, junk: nat -> byte): (r: (Stream, Text))
    requires InText(st)
    ensures InText(r.0) && r.0.text == st.text && r.0.pos >= st.pos && |r.1| == n
  {
    if st.eof || st.fail then (st.(fail := true), Junk(n, 0, junk))
    else if n <= |st.text| - st.pos then (st.(pos := st.pos + n), st.text[st.pos..st.pos + n])
    else
      var rest := st.text[st.pos..];
      (st.(pos := |st.text|, eof := true, fail := true), rest + Junk(n - |rest|, |rest|, junk))
  }

  /** seekg(1, cur) */
  function SkipOne(st: Stream): (r: Stream)
    requires InText(st)
    ensures InText(r) && r.text == st.text && r.pos >= st.pos
  {
    if !st.fail && st.pos < |st.text| then st.(pos := st.pos + 1, eof := false)
    else st.(eof := false, fail := true)
  }

  // ---- the reader ----

  /** The constructor's arguments, what happens to be in uninitialised memory, and whether char is
      signed on the platform. */
  datatype Config = Config(delim: byte, lineDelim: byte, dataKeys: map<Text, Text>, junk: nat -> byte,
                           signedChar: bool)

  /** cleanup_string: strips bytes above 127, of which there are none when char is signed. */
  function Clean(cfg: Config, s: Text): Text {
    if cfg.signedChar then s
    else if s == [] then [] else (if s[0] <= 127 then [s[0]] else []) + Clean(cfg, s[1..])
  }

  /** The position of the first pair with the key, or the number of pairs. */
  function FindKey(pairs: seq<Pair>, key: Text): (i: nat)
    ensures i <= |pairs| && (i < |pairs| ==> pairs[i].key == key)
    ensures forall j :: 0 <= j < i ==> pairs[j].key != key
  {
    if pairs == [] || pairs[0].key == key then 0 else FindKey(pairs[1..], key) + 1
  }

  predicate HasKey(pairs: seq<Pair>, key: Text) {
    FindKey(pairs, key) < |pairs|
  }

  function GetValueInt(pairs: seq<Pair>, key: Text): int {
    var i := FindKey(pairs, key);
    if i < |pairs| then Atoi(pairs[i].value) else 0
  }

  datatype Parser = Parser(pairs: seq<Pair>, key: Text, value: Text, token: Text, st: Stream)

  predicate ExpectsData(cfg: Config, p: Parser) {
    p.key != [] && p.key in cfg.dataKeys
  }

  /** The loop body at an odd token: the parser and whether the loop is left. */
  function TakeValue(cfg: Config, total: nat, p: Parser): (r: (Parser, bool))
    requires InText(p.st)
    ensures InText(r.0.st) && r.0.st.text == p.st.text && r.0.st.pos >= p.st.pos
    ensures !r.1 ==> r.0.key == []
  {
    if HasKey(p.pairs, p.key) then (p.(value := p.token, key := []), false)
    else if p.key in cfg.dataKeys then
      var n := GetValueInt(p.pairs, cfg.dataKeys[p.key]);
      if n < 0 || n > total then (p.(value := p.token), true)
      else
        var (st, data) := ReadBytes(p.st, n, cfg.junk);
        (p.(st := SkipOne(st), value := data, key := [],
            pairs := p.pairs + [Pair(Clean(cfg, p.key), Clean(cfg, data))]), false)
    else
      (p.(value := p.token, key := [], pairs := p.pairs + [Pair(Clean(cfg, p.key), Clean(cfg, p.token))]), false)
  }

  /** The inner loop, from a key (even) or a value (odd). */
  function Inner(cfg: Config, total: nat, p: Parser, odd: bool): (q: Parser)
    requires InText(p.st)
    ensures InText(q.st)
    decreases |p.st.text| - p.st.pos, if !ExpectsData(cfg, p) then 0 else if odd then 1 else 2
  {
    var (st, ok, token) := if ExpectsData(cfg, p) then (p.st, true, p.token) else GetLine(p.st, cfg.delim, p.token);
    var q := p.(st := st, token := token);
    if !ok then q
    else if !odd then Inner(cfg, total, q.(key := token), true)
    else
      var (r, left) := TakeValue(cfg, total, q);
      if left then r else Inner(cfg, total, r, false)
  }

  /** The lines of the text, each parsed on its own. */
  function Lines(cfg: Config, total: nat, lines: Stream, p: Parser): Parser
    requires InText(lines)
    decreases |lines.text| - lines.pos
  {
    var (st, ok, line) := GetLine(lines, cfg.lineDelim, []);
    if !ok then p
    else
      var q := Inner(cfg, total, p.(st := Stream(line, 0, false, false)), false);
      Lines(cfg, total, st, q)
  }

  /** A key that was left without a value. */
  function Trailing(p: Parser): seq<Pair> {
    if p.key != [] then p.pairs + [Pair(p.key, p.value)] else p.pairs
  }

  function Stripped(cfg: Config, s: Text): Text {
    if s != [] && s[0] == cfg.delim then s[1..] else s
  }

  /** The parsing constructor. */
  function Parse(cfg: Config, s: Text): seq<Pair> {
    var text := Stripped(cfg, s);
    var st := Stream(text, 0, false, false);
    var p := Parser([], [], [], [], st);
    if cfg.lineDelim == 0 then Trailing(Inner(cfg, |text|, p, false).(value := []))
    else Trailing(Lines(cfg, |text|, st, p))
  }

  function Piece(cfg: Config, p: Pair): Text {
    [cfg.delim] + p.key + [cfg.delim] + p.value + if cfg.lineDelim != 0 then [cfg.lineDelim] else []
  }

  /** ToString */
  function Rendered(cfg: Config, pairs: seq<Pair>): Text {
    if pairs == [] then [] else Piece(cfg, pairs[0]) + Rendered(cfg, pairs[1..])
  }

  // ---- reading back what was rendered ----

  /** What a pair needs, given those before it: a new, non-empty key without the delimiter, and a
      value without it; or, for a data key, any value whose length the length key gives. */
  predicate Fits(cfg: Config, before: seq<Pair>, p: Pair) {
    && p.key != [] && cfg.delim !in p.key && !HasKey(before, p.key)
    && Clean(cfg, p.key) == p.key && Clean(cfg, p.value) == p.value
    && if p.key in cfg.dataKeys then GetValueInt(before, cfg.dataKeys[p.key]) == |p.value| else cfg.delim !in p.value
  }

  predicate Renderable(cfg: Config, pairs: seq<Pair>) {
    forall i :: 0 <= i < |pairs| ==> Fits(cfg, pairs[..i], pairs[i])
  }

  /** What is left of a rendered list once the next delimiter has been consumed. */
  function Body(cfg: Config, pairs: seq<Pair>): Text
    requires pairs != []
  {
    pairs[0].key + [cfg.delim] + (pairs[0].value + Rendered(cfg, pairs[1..]))
  }

  lemma RenderedBody(cfg: Config, pairs: seq<Pair>)
    requires cfg.lineDelim == 0
    ensures Rendered(cfg, pairs) == if pairs == [] then [] else [cfg.delim] + Body(cfg, pairs)
  {
    if pairs != [] {
      var p, rest := pairs[0], Rendered(cfg, pairs[1..]);
      Regroup([cfg.delim], p.key, [cfg.delim], p.value, rest);
    }
  }

  lemma Regroup(a: Text, b: Text, c: Text, d: Text, e: Text)
    ensures a + b + c + d + [] + e == a + (b + c + (d + e))
  {
    assert a + b + c + d + [] == a + b + c + d;
    assert a + b + c + d + e == a + b + c + (d + e);
    assert a + b + c + (d + e) == a + (b + c + (d + e));
  }

  lemma {:induction false} NextDelimIs(s: Text, from: nat, k: nat, delim: byte)
    requires from <= k <= |s| && delim !in s[from..k] && (k < |s| ==> s[k] == delim)
    ensures NextDelim(s, from, delim) == k
    decreases k - from
  {
    if from < k {
      assert s[from] == s[from..k][0] && s[from + 1..k] == s[from..k][1..];
      NextDelimIs(s, from + 1, k, delim);
    }
  }

  /** A line followed by its delimiter. */
  lemma GetLineAt(st: Stream, delim: byte, line: Text, a: Text, b: Text)
    requires InText(st) && !st.eof && !st.fail && delim !in a && st.text[st.pos..] == a + [delim] + b
    ensures GetLine(st, delim, line) == (st.(pos := st.pos + |a| + 1), true, a)
    ensures st.pos + |a| + 1 <= |st.text| && st.text[st.pos + |a| + 1..] == b
  {
    var k := st.pos + |a|;
    var rest := st.text[st.pos..];
    assert rest[|a|] == delim;
    assert st.text[st.pos..k] == rest[..|a|] == a;
    assert st.text[k + 1..] == rest[|a| + 1..] == b;
    NextDelimIs(st.text, st.pos, k, delim);
  }

  /** The last line, without a delimiter. */
  lemma GetLineLast(st: Stream, delim: byte, line: Text)
    requires InText(st) && !st.eof && !st.fail && delim !in st.text[st.pos..] && st.pos < |st.text|
    ensures GetLine(st, delim, line) == (st.(pos := |st.text|, eof := true), true, st.text[st.pos..])
  {
    NextDelimIs(st.text, st.pos, |st.text|, delim);
  }

  /** The parser between two pairs of a rendered list. */
  predicate Between(cfg: Config, pairs: seq<Pair>, i: nat, p: Parser) {
    && i <= |pairs| && InText(p.st) && p.key == [] && p.pairs == pairs[..i]
    && if i == |pairs| then p.st.eof || p.st.fail || p.st.pos == |p.st.text|
       else !p.st.eof && !p.st.fail && p.st.text[p.st.pos..] == Body(cfg, pairs[i..])
  }

  /** The parser between the key and the value of pair i. */
  predicate AtValue(cfg: Config, pairs: seq<Pair>, i: nat, q: Parser) {
    && i < |pairs| && InText(q.st) && q.key == pairs[i].key && q.pairs == pairs[..i]
    && !q.st.eof && !q.st.fail
    && q.st.text[q.st.pos..] == pairs[i].value + Rendered(cfg, pairs[i + 1..])
  }

  lemma KeyStep(cfg: Config, total: nat, p: Parser)
    requires InText(p.st) && !ExpectsData(cfg, p) && GetLine(p.st, cfg.delim, p.token).1
    ensures var (st, _, token) := GetLine(p.st, cfg.delim, p.token);
            Inner(cfg, total, p, false) == Inner(cfg, total, p.(st := st, token := token, key := token), true)
  {
    hide GetLine, TakeValue;
  }

  lemma DataStep(cfg: Config, total: nat, q: Parser)
    requires InText(q.st) && ExpectsData(cfg, q) && !TakeValue(cfg, total, q).1
    ensures Inner(cfg, total, q, true) == Inner(cfg, total, TakeValue(cfg, total, q).0, false)
  {
    hide GetLine, TakeValue;
  }

  lemma AfterKey(cfg: Config, total: nat, pairs: seq<Pair>, i: nat, p: Parser) returns (q: Parser)
    requires cfg.lineDelim == 0 && i < |pairs| && Between(cfg, pairs, i, p) && Fits(cfg, pairs[..i], pairs[i])
    ensures AtValue(cfg, pairs, i, q) && Inner(cfg, total, p, false) == Inner(cfg, total, q, true)
    ensures q.st.text == p.st.text
  {
    hide Clean, HasKey, Rendered, GetLine, Inner;
    var key, rest := pairs[i].key, pairs[i].value + Rendered(cfg, pairs[i + 1..]);
    assert pairs[i..][1..] == pairs[i + 1..];
    GetLineAt(p.st, cfg.delim, p.token, key, rest);
    KeyStep(cfg, total, p);
    q := p.(st := p.st.(pos := p.st.pos + |key| + 1), token := key, key := key);
  }

  lemma AfterData(cfg: Config, total: nat, pairs: seq<Pair>, i: nat, q: Parser) returns (r: Parser)
    requires cfg.lineDelim == 0 && AtValue(cfg, pairs, i, q) && Fits(cfg, pairs[..i], pairs[i])
    requires pairs[i].key in cfg.dataKeys && total >= |q.st.text|
    ensures Between(cfg, pairs, i + 1, r) && Inner(cfg, total, q, true) == Inner(cfg, total, r, false)
    ensures r.st.text == q.st.text
  {
    hide Clean, HasKey, Rendered, GetValueInt, Inner, Body;
    var value, rest := pairs[i].value, Rendered(cfg, pairs[i + 1..]);
    PayloadAt(q.st, value, rest);
    RenderedBody(cfg, pairs[i + 1..]);
    assert pairs[..i + 1] == pairs[..i] + [pairs[i]];
    DataStep(cfg, total, q);
    r := TakeValue(cfg, total, q).0;
  }

  lemma PayloadAt(st: Stream, value: Text, rest: Text)
    requires InText(st) && !st.eof && !st.fail && st.text[st.pos..] == value + rest
    ensures var at := st.pos + |value|;
            && at <= |st.text| && st.text[st.pos..at] == value
            && (rest == [] <==> at == |st.text|)
            && (rest != [] ==> st.text[at + 1..] == rest[1..])
  {
    var tail := st.text[st.pos..];
    assert tail[..|value|] == value && tail[|value|..] == rest;
    assert st.text[st.pos + |value|..] == rest;
  }

  lemma AfterPlain(cfg: Config, total: nat, pairs: seq<Pair>, i: nat, q: Parser) returns (r: Parser)
    requires cfg.lineDelim == 0 && AtValue(cfg, pairs, i, q) && Fits(cfg, pairs[..i], pairs[i])
    requires pairs[i].key !in cfg.dataKeys && (pairs[i].value != [] || i + 1 < |pairs|)
    ensures Between(cfg, pairs, i + 1, r) && Inner(cfg, total, q, true) == Inner(cfg, total, r, false)
    ensures r.st.text == q.st.text
  {
    hide Clean, HasKey, Rendered, GetValueInt;
    var value, rest := pairs[i].value, pairs[i + 1..];
    RenderedBody(cfg, rest);
    assert pairs[..i + 1] == pairs[..i] + [pairs[i]];
    if rest != [] {
      assert value + ([cfg.delim] + Body(cfg, rest)) == value + [cfg.delim] + Body(cfg, rest);
      GetLineAt(q.st, cfg.delim, q.token, value, Body(cfg, rest));
    } else {
      assert value + [] == value;
      GetLineLast(q.st, cfg.delim, q.token);
    }
    var (st, _, token) := GetLine(q.st, cfg.delim, q.token);
    r := TakeValue(cfg, total, q.(st := st, token := token)).0;
  }

  lemma {:induction false} ReadsBack(cfg: Config, total: nat, pairs: seq<Pair>, i: nat, p: Parser)
    requires cfg.lineDelim == 0 && Renderable(cfg, pairs) && total >= |p.st.text|
    requires i <= |pairs| && Between(cfg, pairs, i, p)
    ensures Trailing(Inner(cfg, total, p, false).(value := [])) == pairs
    decreases |pairs| - i
  {
    hide Fits, AtValue, Between;
    if i < |pairs| {
      var q := AfterKey(cfg, total, pairs, i, p);
      if pairs[i].key in cfg.dataKeys {
        var r := AfterData(cfg, total, pairs, i, q);
        ReadsBack(cfg, total, pairs, i + 1, r);
      } else if pairs[i].value != [] || i + 1 < |pairs| {
        var r := AfterPlain(cfg, total, pairs, i, q);
        ReadsBack(cfg, total, pairs, i + 1, r);
      } else {
        LastIsEmpty(cfg, total, pairs, q);
      }
    } else {
      AllRead(cfg, total, pairs, p);
    }
  }

  lemma AllRead(cfg: Config, total: nat, pairs: seq<Pair>, p: Parser)
    requires Between(cfg, pairs, |pairs|, p)
    ensures Trailing(Inner(cfg, total, p, false).(value := [])) == pairs
  {
    assert pairs[..|pairs|] == pairs;
  }

  lemma LastIsEmpty(cfg: Config, total: nat, pairs: seq<Pair>, q: Parser)
    requires pairs != [] && AtValue(cfg, pairs, |pairs| - 1, q) && pairs[|pairs| - 1].value == []
    requires var z := pairs[|pairs| - 1]; z.key !in cfg.dataKeys && Fits(cfg, pairs[..|pairs| - 1], z)
    ensures Trailing(Inner(cfg, total, q, true).(value := [])) == pairs
  {
    var n := |pairs| - 1;
    assert q.st.text[q.st.pos..] == [] + Rendered(cfg, pairs[n + 1..]) == [];
    assert pairs == pairs[..n] + [Pair(q.key, [])];
  }

  /** Every list of pairs with distinct keys and without delimiters is read back from what
      ToString renders, empty values included, wherever they stand; so is a payload with
      delimiters in it under a data key. */
  lemma RoundTrip(cfg: Config, pairs: seq<Pair>)
    requires cfg.lineDelim == 0 && Renderable(cfg, pairs)
    ensures Parse(cfg, Rendered(cfg, pairs)) == pairs
  {
    hide Inner, Fits;
    RenderedBody(cfg, pairs);
    var text := Stripped(cfg, Rendered(cfg, pairs));
    var p := Parser([], [], [], [], Stream(text, 0, false, false));
    assert pairs[..0] == [] && pairs[0..] == pairs;
    assert text == if pairs == [] then [] else Body(cfg, pairs);
    ReadsBack(cfg, |text|, pairs, 0, p);
  }

  // ---- a payload with its length in front ----

  lemma {:induction false} CleanDigits(cfg: Config, s: Text)
    requires AllDigits(s)
    ensures Clean(cfg, s) == s
    decreases |s|
  {
    if !cfg.signedChar && s != [] {
      CleanDigits(cfg, s[1..]);
      assert IsDigit(s[0]) && [s[0]] + s[1..] == s;
    }
  }

  lemma FindAppended(pairs: seq<Pair>, p: Pair, key: Text)
    requires !HasKey(pairs, key)
    ensures HasKey(pairs + [p], key) <==> p.key == key
    ensures p.key == key ==> FindKey(pairs + [p], key) == |pairs|
  {
    var all := pairs + [p];
    assert all[|pairs|] == p && forall j :: 0 <= j < |pairs| ==> all[j] == pairs[j];
  }

  /** A key for data and the key its length is read from. */
  predicate LengthTagged(cfg: Config, lenKey: Text, dataKey: Text) {
    && lenKey != [] && dataKey != [] && cfg.delim !in lenKey && cfg.delim !in dataKey
    && Clean(cfg, lenKey) == lenKey && Clean(cfg, dataKey) == dataKey
    && dataKey in cfg.dataKeys && cfg.dataKeys[dataKey] == lenKey && lenKey !in cfg.dataKeys
  }

  /** After any renderable pairs without these keys, a payload sent with its printed length in
      front is read back, whatever it contains, delimiters too. */
  lemma PayloadReadBack(cfg: Config, before: seq<Pair>, lenKey: Text, dataKey: Text, payload: Text)
    requires cfg.lineDelim == 0 && !IsDigit(cfg.delim) && LengthTagged(cfg, lenKey, dataKey)
    requires Renderable(cfg, before) && !HasKey(before, lenKey) && !HasKey(before, dataKey)
    requires Clean(cfg, payload) == payload
    ensures var pairs := before + [Pair(lenKey, Digits(|payload|)), Pair(dataKey, payload)];
            Parse(cfg, Rendered(cfg, pairs)) == pairs
  {
    hide Parse, Rendered, Clean, HasKey, FindKey, Atoi, Digits;
    var l, d := Pair(lenKey, Digits(|payload|)), Pair(dataKey, payload);
    var pairs := before + [l, d];
    CleanDigits(cfg, l.value);
    AtoiOfDigits(|payload|);
    FindAppended(before, l, lenKey);
    FindAppended(before, l, dataKey);
    assert Fits(cfg, before, l);
    FoundLast(before, l);
    assert Fits(cfg, before + [l], d);
    forall i | 0 <= i < |pairs| ensures Fits(cfg, pairs[..i], pairs[i]) {
      if i < |before| {
        assert pairs[..i] == before[..i];
      } else {
        assert pairs[..i] == if i == |before| then before else before + [l];
      }
    }
    RoundTrip(cfg, pairs);
  }

  lemma FoundLast(before: seq<Pair>, p: Pair)
    requires !HasKey(before, p.key)
    ensures GetValueInt(before + [p], p.key) == Atoi(p.value)
  {
    hide Atoi;
    FindAppended(before, p, p.key);
  }

  // ---- several lines ----

  lemma {:induction false} InnerExtends(cfg: Config, total: nat, p: Parser, odd: bool)
    requires InText(p.st)
    ensures p.pairs <= Inner(cfg, total, p, odd).pairs
    decreases |p.st.text| - p.st.pos, if !ExpectsData(cfg, p) then 0 else if odd then 1 else 2
  {
    hide Clean, HasKey, GetValueInt;
    var (st, ok, token) := if ExpectsData(cfg, p) then (p.st, true, p.token) else GetLine(p.st, cfg.delim, p.token);
    var q := p.(st := st, token := token);
    if ok && !odd {
      InnerExtends(cfg, total, q.(key := token), true);
    } else if ok && !TakeValue(cfg, total, q).1 {
      InnerExtends(cfg, total, TakeValue(cfg, total, q).0, false);
    }
  }

  lemma {:induction false} LinesExtend(cfg: Config, total: nat, lines: Stream, p: Parser)
    requires InText(lines)
    ensures p.pairs <= Lines(cfg, total, lines, p).pairs
    decreases |lines.text| - lines.pos
  {
    hide Inner;
    var (st, ok, line) := GetLine(lines, cfg.lineDelim, []);
    if ok {
      var start := p.(st := Stream(line, 0, false, false));
      InnerExtends(cfg, total, start, false);
      LinesExtend(cfg, total, st, Inner(cfg, total, start, false));
    }
  }

  /** Without the delimiter in front, a line with one pair gives that pair, at once or once the
      text has ended. */
  lemma OneLine(cfg: Config, total: nat, pair: Pair)
    requires pair.key !in cfg.dataKeys && Fits(cfg, [], pair)
    ensures var line := pair.key + [cfg.delim] + pair.value;
            var q := Inner(cfg, total, Parser([], [], [], [], Stream(line, 0, false, false)), false);
            && Trailing(q) == [pair] && (q.pairs == [] || q.pairs == [pair])
            && (q.key == [] || q.key == pair.key)
  {
    hide Clean;
    var line := pair.key + [cfg.delim] + pair.value;
    var p := Parser([], [], [], [], Stream(line, 0, false, false));
    assert line[0..] == line;
    GetLineAt(p.st, cfg.delim, [], pair.key, pair.value);
    KeyStep(cfg, total, p);
    var st := p.st.(pos := |pair.key| + 1);
    if pair.value != [] {
      GetLineLast(st, cfg.delim, pair.key);
    }
  }

  /** With the delimiter in front, a line starts with an empty key, whose value is what should have
      been the key. */
  lemma LaterLine(cfg: Config, total: nat, p: Parser, pair: Pair)
    requires [] !in cfg.dataKeys && pair.key !in cfg.dataKeys && !ExpectsData(cfg, p)
    requires Fits(cfg, [], pair) && !HasKey(p.pairs, [])
    requires p.st == Stream([cfg.delim] + pair.key + [cfg.delim] + pair.value, 0, false, false)
    ensures p.pairs + [Pair([], pair.key)] <= Inner(cfg, total, p, false).pairs
  {
    hide Inner, HasKey, Clean;
    var line := p.st.text;
    assert line[0..] == [] + [cfg.delim] + (pair.key + [cfg.delim] + pair.value);
    GetLineAt(p.st, cfg.delim, p.token, [], pair.key + [cfg.delim] + pair.value);
    KeyStep(cfg, total, p);
    var q := p.(st := p.st.(pos := 1), token := [], key := []);
    GetLineAt(q.st, cfg.delim, [], pair.key, pair.value);
    ValueStep(cfg, total, q);
    CleanNothing(cfg);
    InnerExtends(cfg, total, TakeValue(cfg, total, q.(st := q.st.(pos := |pair.key| + 2), token := pair.key)).0, false);
  }

  lemma CleanNothing(cfg: Config)
    ensures Clean(cfg, []) == []
  {
  }

  lemma ValueStep(cfg: Config, total: nat, q: Parser)
    requires InText(q.st) && !ExpectsData(cfg, q) && GetLine(q.st, cfg.delim, q.token).1
    requires q.key !in cfg.dataKeys
    ensures var (st, _, token) := GetLine(q.st, cfg.delim, q.token);
            Inner(cfg, total, q, true) == Inner(cfg, total, TakeValue(cfg, total, q.(st := st, token := token)).0, false)
  {
    hide GetLine, HasKey, Clean;
  }

  predicate FreeOf(pairs: seq<Pair>, b: byte) {
    forall i :: 0 <= i < |pairs| ==> b !in pairs[i].key && b !in pairs[i].value
  }

  function PairLine(cfg: Config, p: Pair): Text {
    p.key + [cfg.delim] + p.value
  }

  lemma RenderedLine(cfg: Config, pairs: seq<Pair>)
    requires cfg.lineDelim != 0 && pairs != []
    ensures Rendered(cfg, pairs)
            == [cfg.delim] + (PairLine(cfg, pairs[0]) + [cfg.lineDelim] + Rendered(cfg, pairs[1..]))
  {
    var p, l, rest := pairs[0], [cfg.lineDelim], Rendered(cfg, pairs[1..]);
    var d: Text := [cfg.delim];
    assert d + p.key + d + p.value + l + rest == d + (p.key + d + p.value + l + rest);
  }

  /** The next line of the text is parsed. */
  lemma LineStep(cfg: Config, total: nat, lines: Stream, p: Parser, line: Text, rest: Text)
    requires InText(lines) && !lines.eof && !lines.fail && cfg.lineDelim !in line
    requires lines.text[lines.pos..] == line + [cfg.lineDelim] + rest
    ensures lines.pos + |line| + 1 <= |lines.text| && lines.text[lines.pos + |line| + 1..] == rest
    ensures Lines(cfg, total, lines, p) ==
            Lines(cfg, total, lines.(pos := lines.pos + |line| + 1),
                  Inner(cfg, total, p.(st := Stream(line, 0, false, false)), false))
  {
    GetLineAt(lines, cfg.lineDelim, [], line, rest);
    hide Inner, GetLine;
  }

  /** Neither the pairs' keys nor the empty key call for data. */
  predicate WithoutData(cfg: Config, pairs: seq<Pair>) {
    [] !in cfg.dataKeys && forall i :: 0 <= i < |pairs| ==> pairs[i].key !in cfg.dataKeys
  }

  lemma FitsAlone(cfg: Config, pairs: seq<Pair>, i: nat)
    requires WithoutData(cfg, pairs) && Renderable(cfg, pairs) && i < |pairs|
    ensures Fits(cfg, [], pairs[i]) && pairs[i].key != [] && cfg.delim !in pairs[i].key
  {
    assert Fits(cfg, pairs[..i], pairs[i]);
  }

  /** The second line leaves a pair with an empty key behind. */
  lemma SecondLine(cfg: Config, total: nat, lines: Stream, p: Parser, pairs: seq<Pair>)
    requires cfg.lineDelim != 0 && cfg.lineDelim != cfg.delim && WithoutData(cfg, pairs)
    requires Renderable(cfg, pairs) && FreeOf(pairs, cfg.lineDelim) && |pairs| >= 2
    requires InText(lines) && !lines.eof && !lines.fail && lines.text[lines.pos..] == Rendered(cfg, pairs[1..])
    requires p.pairs == [] || p.pairs == [pairs[0]]
    requires p.key == [] || p.key == pairs[0].key
    ensures Trailing(Lines(cfg, total, lines, p)) != pairs
  {
    hide Inner, Lines, Fits, Clean, Rendered, Renderable;
    var b, j := pairs[1], |p.pairs|;
    FitsAlone(cfg, pairs, 0);
    FitsAlone(cfg, pairs, 1);
    RenderedLine(cfg, pairs[1..]);
    var line, rest := [cfg.delim] + PairLine(cfg, b), Rendered(cfg, pairs[1..][1..]);
    assert line + [cfg.lineDelim] + rest == [cfg.delim] + (PairLine(cfg, b) + [cfg.lineDelim] + rest);
    LineStep(cfg, total, lines, p, line, rest);
    var q := p.(st := Stream(line, 0, false, false));
    assert line == [cfg.delim] + b.key + [cfg.delim] + b.value;
    LaterLine(cfg, total, q, b);
    var r := Inner(cfg, total, q, false);
    var on := lines.(pos := lines.pos + |line| + 1);
    LinesExtend(cfg, total, on, r);
    hide HasKey, PairLine;
    var all := Trailing(Lines(cfg, total, on, r));
    assert all[j] == (p.pairs + [Pair([], b.key)])[j];
    FitsAlone(cfg, pairs, j);
  }

  /** The first line gives the first pair, at once or once the text has ended. */
  lemma FirstLine(cfg: Config, pairs: seq<Pair>) returns (total: nat, lines: Stream, q: Parser)
    requires cfg.lineDelim != 0 && cfg.lineDelim != cfg.delim && WithoutData(cfg, pairs) && pairs != []
    requires Renderable(cfg, pairs) && FreeOf(pairs, cfg.lineDelim)
    ensures InText(lines) && !lines.eof && !lines.fail && lines.text[lines.pos..] == Rendered(cfg, pairs[1..])
    ensures Trailing(q) == [pairs[0]] && (q.pairs == [] || q.pairs == [pairs[0]])
    ensures q.key == [] || q.key == pairs[0].key
    ensures Parse(cfg, Rendered(cfg, pairs)) == Trailing(Lines(cfg, total, lines, q))
  {
    hide Inner, Fits, Renderable, Rendered, Clean, HasKey, Trailing, Lines;
    FitsAlone(cfg, pairs, 0);
    RenderedLine(cfg, pairs);
    var line, rest := PairLine(cfg, pairs[0]), Rendered(cfg, pairs[1..]);
    var text := line + [cfg.lineDelim] + rest;
    assert Stripped(cfg, Rendered(cfg, pairs)) == text;
    assert text[0..] == text;
    total, lines := |text|, Stream(text, 0, false, false);
    var p := Parser([], [], [], [], lines);
    LineStep(cfg, total, lines, p, line, rest);
    OneLine(cfg, total, pairs[0]);
    q := Inner(cfg, total, p.(st := Stream(line, 0, false, false)), false);
    lines := lines.(pos := |line| + 1);
  }

  /** With a line delimiter, what ToString renders is read back only up to one pair: every line
      starts with the delimiter, but only the first is stripped of it. */
  lemma LinesRoundTripUpToOne(cfg: Config, pairs: seq<Pair>)
    requires cfg.lineDelim != 0 && cfg.lineDelim != cfg.delim && WithoutData(cfg, pairs)
    requires Renderable(cfg, pairs) && FreeOf(pairs, cfg.lineDelim)
    ensures Parse(cfg, Rendered(cfg, pairs)) == pairs <==> |pairs| <= 1
  {
    hide Inner, Fits, Renderable, Rendered, Clean, HasKey;
    RenderedNothing(cfg);
    if pairs != [] {
      var total, lines, q := FirstLine(cfg, pairs);
      hide Parse, Trailing;
      if |pairs| >= 2 {
        SecondLine(cfg, total, lines, q, pairs);
      } else {
        assert pairs == [pairs[0]] && pairs[1..] == [];
      }
    }
  }

  lemma RenderedNothing(cfg: Config)
    ensures Rendered(cfg, []) == []
  {
  }

  // ---- the object ----

  class KVReader {
    const cfg: Config
    var pairs: seq<Pair>

    constructor (cfg: Config, kvPair: Text)
      requires cfg.delim != 0
      ensures this.cfg == cfg && pairs == Parse(cfg, kvPair)
    {
      this.cfg, pairs := cfg, [];
      new;
      hide Inner;
      var text := kvPair;
      if kvPair != [] && kvPair[0] == cfg.delim {
        text := text[1..];
      }
      var ss := Stream(text, 0, false, false);
      var key, value, token := [], [], [];
      if cfg.lineDelim == 0 {
        ghost var last;
        key, value, token, last := ParseLine(|text|, key, value, token, text);
        value := [];
      } else {
        ghost var target := Lines(cfg, |text|, ss, Parser([], [], [], [], ss));
        ghost var last := ss;
        while true
          invariant InText(ss) && Lines(cfg, |text|, ss, Parser(pairs, key, value, token, last)) == target
          decreases |ss.text| - ss.pos
        {
          var (st, ok, line) := GetLine(ss, cfg.lineDelim, []);
          if !ok {
            break;
          }
          key, value, token, last := ParseLine(|text|, key, value, token, line);
          ss := st;
        }
      }
      if key != [] {
        pairs := pairs + [Pair(key, value)];
      }
    }

    /** The inner loop of the constructor. */
    method ParseLine(total: nat, key0: Text, value0: Text, token0: Text, line: Text)
      returns (key: Text, value: Text, token: Text, ghost last: Stream)
      modifies this`pairs
      ensures Parser(pairs, key, value, token, last) ==
              Inner(cfg, total, old(Parser(pairs, key0, value0, token0, Stream(line, 0, false, false))), false)
    {
      hide Clean, GetLine, ReadBytes, SkipOne, FindKey, GetValueInt;
      key, value, token := key0, value0, token0;
      var lineStream, i := Stream(line, 0, false, false), 0;
      ghost var target := Inner(cfg, total, Parser(pairs, key, value, token, lineStream), false);
      while true
        invariant i >= 0 && InText(lineStream)
        invariant Inner(cfg, total, Parser(pairs, key, value, token, lineStream), i % 2 == 1) == target
        decreases |lineStream.text| - lineStream.pos,
                  if !ExpectsData(cfg, Parser(pairs, key, value, token, lineStream)) then 0 else 2 - i % 2
      {
        if key == [] || key !in cfg.dataKeys {
          var (st, ok, next) := GetLine(lineStream, cfg.delim, token);
          lineStream, token := st, next;
          if !ok {
            break;
          }
        }
        if i % 2 == 0 {
          key := token;
        } else {
          value := token;
          var has := FindIndex(key);
          if has == |pairs| {
            if key in cfg.dataKeys {
              var len := GetValueInt(pairs, cfg.dataKeys[key]);
              if len < 0 || len > total {
                break;
              }
              var (st, data) := ReadBytes(lineStream, len, cfg.junk);
              lineStream := SkipOne(st);
              value := data;
              pairs := pairs + [Pair(Clean(cfg, key), Clean(cfg, value))];
            } else {
              pairs := pairs + [Pair(Clean(cfg, key), Clean(cfg, value))];
            }
          }
          key := [];
        }
        i := i + 1;
      }
      last := lineStream;
    }

    /** FindKey: the first pair with the key, or the end. */
    method FindIndex(key: Text) returns (i: nat)
      ensures i == FindKey(pairs, key)
    {
      i := 0;
      assert pairs[0..] == pairs;
      while i < |pairs|
        invariant i <= |pairs| && FindKey(pairs, key) == i + FindKey(pairs[i..], key)
      {
        if pairs[i].key == key {
          return;
        }
        assert pairs[i..][1..] == pairs[i + 1..];
        i := i + 1;
      }
    }

    method ToString() returns (ret: Text)
      ensures ret == Rendered(cfg, pairs)
    {
      hide Rendered, Piece;
      ret := [];
      assert pairs[0..] == pairs && [] + Rendered(cfg, pairs) == Rendered(cfg, pairs);
      for i := 0 to |pairs|
        invariant ret + Rendered(cfg, pairs[i..]) == Rendered(cfg, pairs)
      {
        ghost var before, rest := ret, Rendered(cfg, pairs[i + 1..]);
        var p := pairs[i];
        RenderStep(cfg, pairs, i);
        ret := ret + ([cfg.delim] + p.key + [cfg.delim] + p.value);
        if cfg.lineDelim != 0 {
          ret := ret + [cfg.lineDelim];
        }
        PieceAppended(cfg, before, p);
        assert before + (Piece(cfg, p) + rest) == before + Piece(cfg, p) + rest;
      }
      RenderedNothing(cfg);
      assert pairs[|pairs|..] == [] && ret + [] == ret;
    }
  }

  lemma RenderStep(cfg: Config, pairs: seq<Pair>, i: nat)
    requires i < |pairs|
    ensures Rendered(cfg, pairs[i..]) == Piece(cfg, pairs[i]) + Rendered(cfg, pairs[i + 1..])
  {
    assert pairs[i..][1..] == pairs[i + 1..];
  }

  lemma PieceAppended(cfg: Config, ret: Text, p: Pair)
    ensures var front := ret + ([cfg.delim] + p.key + [cfg.delim] + p.value);
            ret + Piece(cfg, p) == if cfg.lineDelim != 0 then front + [cfg.lineDelim] else front
  {
    var piece := [cfg.delim] + p.key + [cfg.delim] + p.value;
    assert piece + [] == piece && ret + (piece + [cfg.lineDelim]) == ret + piece + [cfg.lineDelim];
  }

  // ---- a key twice ----

  /** Of two values for one key the first is kept. */
  lemma FirstValueKept(cfg: Config, k: Text, v: Text, w: Text)
    requires cfg.lineDelim == 0 && k != [] && k !in cfg.dataKeys && w != []
    requires cfg.delim !in k && cfg.delim !in v && cfg.delim !in w && Clean(cfg, k) == k && Clean(cfg, v) == v
    ensures var d := [cfg.delim]; Parse(cfg, d + k + d + v + d + k + d + w) == [Pair(k, v)]
  {
    hide Clean, Inner, Trailing;
    var d := [cfg.delim];
    var rest := k + d + w;
    var text := k + d + (v + d + rest);
    assert d + k + d + v + d + k + d + w == d + text;
    assert (d + text)[1..] == text;
    FirstValueRead(cfg, k, v, rest);
    SecondValue(cfg, |text|, AfterFirst(cfg, k, v, rest), k, w);
  }

  /** The parser after the first pair. */
  function AfterFirst(cfg: Config, k: Text, v: Text, rest: Text): Parser {
    var d := [cfg.delim];
    Parser([Pair(k, v)], [], v, v, Stream(k + d + (v + d + rest), |k| + |v| + 2, false, false))
  }

  lemma FirstValueRead(cfg: Config, k: Text, v: Text, rest: Text)
    requires k != [] && k !in cfg.dataKeys && cfg.delim !in k && cfg.delim !in v
    requires Clean(cfg, k) == k && Clean(cfg, v) == v
    ensures var text := k + [cfg.delim] + (v + [cfg.delim] + rest);
            && Inner(cfg, |text|, Parser([], [], [], [], Stream(text, 0, false, false)), false)
               == Inner(cfg, |text|, AfterFirst(cfg, k, v, rest), false)
            && text[|k| + |v| + 2..] == rest
  {
    hide Clean, Inner, HasKey;
    var text := k + [cfg.delim] + (v + [cfg.delim] + rest);
    var p := Parser([], [], [], [], Stream(text, 0, false, false));
    assert text[0..] == text;
    GetLineAt(p.st, cfg.delim, [], k, v + [cfg.delim] + rest);
    KeyStep(cfg, |text|, p);
    var q := p.(st := p.st.(pos := |k| + 1), token := k, key := k);
    GetLineAt(q.st, cfg.delim, k, v, rest);
    ValueStep(cfg, |text|, q);
    hide GetLine, TakeValue;
    FirstTaken(cfg, |text|, q.(st := q.st.(pos := |k| + |v| + 2), token := v), k, v);
  }

  lemma FirstTaken(cfg: Config, total: nat, q: Parser, k: Text, v: Text)
    requires InText(q.st) && q.pairs == [] && q.key == k && q.token == v && k !in cfg.dataKeys
    requires Clean(cfg, k) == k && Clean(cfg, v) == v
    ensures TakeValue(cfg, total, q).0 == q.(value := v, key := [], pairs := [Pair(k, v)])
  {
    hide Clean;
    assert [] + [Pair(k, v)] == [Pair(k, v)];
  }

  lemma KeyFound(k: Text, v: Text)
    ensures !HasKey([], k) && HasKey([Pair(k, v)], k)
  {
  }

  lemma SecondValue(cfg: Config, total: nat, r: Parser, k: Text, w: Text)
    requires InText(r.st) && !r.st.eof && !r.st.fail && r.key == [] && |r.pairs| == 1 && r.pairs[0].key == k
    requires k != [] && k !in cfg.dataKeys && cfg.delim !in k && cfg.delim !in w && w != []
    requires r.st.text[r.st.pos..] == k + [cfg.delim] + w
    ensures Trailing(Inner(cfg, total, r, false).(value := [])) == r.pairs
  {
    hide Clean, Inner;
    GetLineAt(r.st, cfg.delim, r.token, k, w);
    KeyStep(cfg, total, r);
    var q := r.(st := r.st.(pos := r.st.pos + |k| + 1), token := k, key := k);
    GetLineLast(q.st, cfg.delim, k);
    ValueStep(cfg, total, q);
    KeyFound(k, r.pairs[0].value);
    assert r.pairs == [Pair(k, r.pairs[0].value)];
    var st := q.st.(pos := |q.st.text|, eof := true);
    hide HasKey;
    var z := TakeValue(cfg, total, q.(st := st, token := w)).0;
    AllRead(cfg, total, r.pairs, z);
  }

  /** Cleaning leaves a text alone exactly if char is signed or no byte is above 127. */
  lemma {:induction false} CleanExactly(cfg: Config, s: Text)
    ensures Clean(cfg, s) == s <==> cfg.signedChar || forall i :: 0 <= i < |s| ==> s[i] <= 127
    ensures |Clean(cfg, s)| <= |s|
    decreases |s|
  {
    if !cfg.signedChar && s != [] {
      CleanExactly(cfg, s[1..]);
      if s[0] <= 127 {
        assert Clean(cfg, s) == [s[0]] + Clean(cfg, s[1..]) && Clean(cfg, s)[1..] == Clean(cfg, s[1..]);
        assert forall i :: 1 <= i < |s| ==> s[i] == s[1..][i - 1];
        assert s == [s[0]] + s[1..];
      }
    }
  }
}
