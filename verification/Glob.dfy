/** The mask matcher used for chat masks and for LIKE in server filters. */
module Glob {
  import opened Bits

  const STAR: byte := 42        // '*'
  const QUESTION: byte := 63    // '?'
  const UNDERSCORE: byte := 95
  const SPACE: byte := 32
  const BANG: byte := 33        // '!'
  const AT: byte := 64          // '@'

  function ToLower(c: byte): byte {
    if 65 <= c <= 90 then c + 32 else c
  }

  /** One mask character against one name character: equal up to case, '_' for a space, '?' for
      anything. */
  predicate CharMatches(m: byte, n: byte) {
    ToLower(m) == ToLower(n) || (m == UNDERSCORE && n == SPACE) || m == QUESTION
  }

  /** The meaning of a mask: the wildcard stands for any string, every other character for one
      character. */
  predicate Matches(mask: seq<byte>, name: seq<byte>, w: byte)
    decreases |mask| + |name|
  {
    if mask == [] then name == []
    else if mask[0] == w then
      Matches(mask[1..], name, w) || (name != [] && Matches(mask, name[1..], w))
    else
      name != [] && CharMatches(mask[0], name[0]) && Matches(mask[1..], name[1..], w)
  }

  /** Strings are NUL-terminated; reading at the end gives the terminator. */
  function CharAt(s: seq<byte>, i: nat): byte
    requires i <= |s|
  {
    if i < |s| then s[i] else 0
  }

  predicate CString(s: seq<byte>) {
    0 !in s
  }

  /** The matching relation between the rest of the mask from i and the rest of the name from j. */
  predicate From(mask: seq<byte>, name: seq<byte>, w: byte, i: nat, j: nat)
    requires i <= |mask| && j <= |name|
  {
    Matches(mask[i..], name[j..], w)
  }

  lemma Unfold(mask: seq<byte>, name: seq<byte>, w: byte, i: nat, j: nat)
    requires i <= |mask| && j <= |name|
    ensures From(mask, name, w, i, j) ==
            if i == |mask| then j == |name|
            else if mask[i] == w then From(mask, name, w, i + 1, j) || (j < |name| && From(mask, name, w, i, j + 1))
            else j < |name| && CharMatches(mask[i], name[j]) && From(mask, name, w, i + 1, j + 1)
  {
    if i < |mask| {
      assert mask[i..][1..] == mask[i + 1..];
    }
    if j < |name| {
      assert name[j..][1..] == name[j + 1..];
    }
  }

  /** The mask characters from i match the name characters from j one to one for len places. */
  ghost predicate Segment(mask: seq<byte>, name: seq<byte>, w: byte, i: nat, j: nat, len: nat) {
    && i + len <= |mask| && j + len <= |name|
    && forall p :: i <= p < i + len ==> mask[p] != w && CharMatches(mask[p], name[j + (p - i)])
  }

  /** A matched segment can be skipped. */
  lemma {:induction false} SkipSegment(mask: seq<byte>, name: seq<byte>, w: byte, i: nat, j: nat, len: nat)
    requires Segment(mask, name, w, i, j, len)
    ensures From(mask, name, w, i, j) == From(mask, name, w, i + len, j + len)
    decreases len
  {
    if len > 0 {
      Unfold(mask, name, w, i, j);
      assert mask[i] != w && CharMatches(mask[i], name[j]);
      SkipSegment(mask, name, w, i + 1, j + 1, len - 1);
    }
  }

  /** Wherever the rest of the mask matches, the part after a wildcard-free stretch matches as
      many places further on. */
  lemma {:induction false} DropPlain(mask: seq<byte>, name: seq<byte>, w: byte, i: nat, j: nat, len: nat)
    requires i + len <= |mask| && j <= |name|
    requires forall k :: i <= k < i + len ==> mask[k] != w
    requires From(mask, name, w, i, j)
    ensures j + len <= |name| && From(mask, name, w, i + len, j + len)
    decreases len
  {
    if len > 0 {
      Unfold(mask, name, w, i, j);
      DropPlain(mask, name, w, i + 1, j + 1, len - 1);
    }
  }

  /** A wildcard that can match from j' can match from any earlier place. */
  lemma {:induction false} WildEarlier(mask: seq<byte>, name: seq<byte>, w: byte, i: nat, j: nat, j': nat)
    requires i < |mask| && mask[i] == w && j <= j' <= |name|
    requires From(mask, name, w, i, j')
    ensures From(mask, name, w, i, j)
    decreases j' - j
  {
    if j < j' {
      WildEarlier(mask, name, w, i, j + 1, j');
      Unfold(mask, name, w, i, j);
    }
  }

  /** A wildcard matches iff what follows it matches somewhere at or after the place. */
  lemma {:induction false} WildSomewhere(mask: seq<byte>, name: seq<byte>, w: byte, i: nat, j: nat)
    returns (k: nat)
    requires i < |mask| && mask[i] == w && j <= |name|
    requires From(mask, name, w, i, j)
    ensures j <= k <= |name| && From(mask, name, w, i + 1, k)
    decreases |name| - j
  {
    Unfold(mask, name, w, i, j);
    if From(mask, name, w, i + 1, j) {
      k := j;
    } else {
      k := WildSomewhere(mask, name, w, i, j + 1);
    }
  }

  /** A run of wildcards is one wildcard. */
  lemma {:induction false} CollapseWilds(mask: seq<byte>, name: seq<byte>, w: byte, i: nat, e: nat, j: nat)
    requires i < e <= |mask| && j <= |name|
    requires forall k :: i <= k < e ==> mask[k] == w
    ensures From(mask, name, w, i, j) == From(mask, name, w, e - 1, j)
    decreases e - i
  {
    if i + 1 < e {
      CollapseWilds(mask, name, w, i + 1, e, j);
      Unfold(mask, name, w, i, j);
      if From(mask, name, w, i, j) {
        var k := WildSomewhere(mask, name, w, i, j);
        WildEarlier(mask, name, w, i + 1, j, k);
      }
    }
  }

  /** A rest of nothing but '?' matches exactly the rests of its length. */
  lemma {:induction false} AllQuestions(mask: seq<byte>, name: seq<byte>, w: byte, i: nat, j: nat)
    requires i <= |mask| && j <= |name| && w != QUESTION
    requires forall k :: i <= k < |mask| ==> mask[k] == QUESTION
    ensures From(mask, name, w, i, j) == (|mask| - i == |name| - j)
    decreases |mask| - i
  {
    Unfold(mask, name, w, i, j);
    if i < |mask| && j < |name| {
      AllQuestions(mask, name, w, i + 1, j + 1);
    }
  }

  // ---- what backtracking to the last wildcard may assume ----

  /** The position of the matcher: ma is the place after the last wildcard (-1 before the first),
      na where its part of the name starts, and the part of the mask since then has matched. */
  ghost predicate Position(mask: seq<byte>, name: seq<byte>, w: byte, m: nat, n: nat, ma: int, na: nat) {
    if ma < 0 then
      na == 0 && Segment(mask, name, w, 0, 0, m) && n == m
    else
      && 1 <= ma <= m <= |mask| && mask[ma - 1] == w && (ma < |mask| ==> mask[ma] != w)
      && na <= n == na + (m - ma)
      && Segment(mask, name, w, ma, na, m - ma)
  }

  /** What the answer depends on from such a position. */
  ghost predicate Pending(mask: seq<byte>, name: seq<byte>, w: byte, m: nat, n: nat, ma: int, na: nat)
    requires Position(mask, name, w, m, n, ma, na)
  {
    if ma < 0 then From(mask, name, w, 0, 0) else From(mask, name, w, ma - 1, na)
  }

  /** The earliest match of the part between two wildcards leaves the most for the rest. */
  lemma GreedyIsEnough(mask: seq<byte>, name: seq<byte>, w: byte, m: nat, n: nat, ma: nat, na: nat)
    requires Position(mask, name, w, m, n, ma, na) && m < |mask| && mask[m] == w
    ensures From(mask, name, w, m, n) == From(mask, name, w, ma - 1, na)
  {
    hide From;
    SkipSegment(mask, name, w, ma, na, m - ma);
    Unfold(mask, name, w, ma - 1, na);
    if From(mask, name, w, ma - 1, na) {
      var k := WildSomewhere(mask, name, w, ma - 1, na);
      DropPlain(mask, name, w, ma, k, m - ma);
      WildEarlier(mask, name, w, m, n, k + (m - ma));
    }
  }

  /** Meeting a new wildcard, the old one can be forgotten. */
  lemma ForgetOlderWild(mask: seq<byte>, name: seq<byte>, w: byte, m: nat, n: nat, ma: int, na: nat, e: nat)
    requires Position(mask, name, w, m, n, ma, na)
    requires m < e <= |mask| && (forall k :: m <= k < e ==> mask[k] == w)
    requires e < |mask| ==> mask[e] != w
    ensures Position(mask, name, w, e, n, e, n)
    ensures Pending(mask, name, w, e, n, e, n) == Pending(mask, name, w, m, n, ma, na)
  {
    hide From;
    CollapseWilds(mask, name, w, m, e, n);
    if ma < 0 {
      SkipSegment(mask, name, w, 0, 0, m);
    } else {
      GreedyIsEnough(mask, name, w, m, n, ma, na);
    }
  }

  /** If the part since the last wildcard cannot match here, its start moves one place on. */
  lemma Backtrack(mask: seq<byte>, name: seq<byte>, w: byte, m: nat, n: nat, ma: int, na: nat)
    requires Position(mask, name, w, m, n, ma, na) && ma >= 0 && na < |name|
    requires !From(mask, name, w, m, n)
    ensures Position(mask, name, w, ma, na + 1, ma, na + 1)
    ensures Pending(mask, name, w, ma, na + 1, ma, na + 1) == Pending(mask, name, w, m, n, ma, na)
  {
    SkipSegment(mask, name, w, ma, na, m - ma);
    Unfold(mask, name, w, ma - 1, na);
  }

  /** A matching character moves the matcher on and leaves the question as it is. */
  lemma OneCharFurther(mask: seq<byte>, name: seq<byte>, w: byte, m: nat, n: nat, ma: int, na: nat)
    requires Position(mask, name, w, m, n, ma, na)
    requires m < |mask| && n < |name| && mask[m] != w && CharMatches(mask[m], name[n])
    ensures Position(mask, name, w, m + 1, n + 1, ma, na)
    ensures Pending(mask, name, w, m + 1, n + 1, ma, na) == Pending(mask, name, w, m, n, ma, na)
  {
  }

  /** A match from here on is a match from the wildcard; before the first wildcard it is the
      whole answer. */
  lemma MatchFromHere(mask: seq<byte>, name: seq<byte>, w: byte, m: nat, n: nat, ma: int, na: nat)
    requires Position(mask, name, w, m, n, ma, na)
    ensures From(mask, name, w, m, n) ==> Pending(mask, name, w, m, n, ma, na)
    ensures ma < 0 ==> From(mask, name, w, m, n) == Pending(mask, name, w, m, n, ma, na)
  {
    if ma < 0 {
      SkipSegment(mask, name, w, 0, 0, m);
    } else {
      SkipSegment(mask, name, w, ma, na, m - ma);
      Unfold(mask, name, w, ma - 1, na);
    }
  }

  /** When the name runs out before a plain mask character there is no match at all. */
  lemma NameExhausted(mask: seq<byte>, name: seq<byte>, w: byte, m: nat, n: nat, ma: int, na: nat)
    requires Position(mask, name, w, m, n, ma, na)
    requires n == |name| && m < |mask| && mask[m] != w
    ensures !Pending(mask, name, w, m, n, ma, na)
  {
    Unfold(mask, name, w, m, n);
    if ma < 0 {
      SkipSegment(mask, name, w, 0, 0, m);
    } else if From(mask, name, w, ma - 1, na) {
      var k := WildSomewhere(mask, name, w, ma - 1, na);
      DropPlain(mask, name, w, ma, k, m - ma);
      assert false;
    }
  }

  /** The shortcut at the end of the mask: a wildcard followed by nothing but '?' absorbs what
      is left of the name. */
  lemma TrailingQuestions(mask: seq<byte>, name: seq<byte>, w: byte, n: nat, ma: int, na: nat)
    requires Position(mask, name, w, |mask|, n, ma, na) && ma >= 0 && w != QUESTION
    requires forall k :: ma <= k < |mask| ==> mask[k] == QUESTION
    ensures Pending(mask, name, w, |mask|, n, ma, na)
  {
    var k := |name| - (|mask| - ma);
    AllQuestions(mask, name, w, ma, k);
    Unfold(mask, name, w, ma - 1, k);
    WildEarlier(mask, name, w, ma - 1, na, k);
  }

  // ---- the matcher ----

  /** match2 returns 0 exactly for a match, on every mask and name, and always terminates.  The
      wildcard may be any character but the terminator and '?'. */
  method Match2(mask: seq<byte>, name: seq<byte>, wildcard: byte) returns (r: int, matchCount: nat)
    requires CString(mask) && CString(name) && wildcard != 0 && wildcard != QUESTION
    ensures r == 0 || r == 1
    ensures r == 0 <==> Matches(mask, name, wildcard)
    ensures r == 0 && wildcard !in mask ==> matchCount == |mask|
  {
    hide From, Matches, Pending, CharMatches;
    var m: nat, n: nat, ma: int, na: nat := 0, 0, -1, 0;
    matchCount := 0;
    Whole(mask, name, wildcard);
    while true
      invariant Position(mask, name, wildcard, m, n, ma, na)
      invariant n <= |name| && na <= |name|
      invariant Pending(mask, name, wildcard, m, n, ma, na) == Matches(mask, name, wildcard)
      invariant ma < 0 ==> matchCount == m
      decreases |name| - na, |mask| - m
    {
      if CharAt(mask, m) == wildcard {
        ghost var m0 := m;
        while CharAt(mask, m) == wildcard
          invariant m0 <= m <= |mask| && forall k :: m0 <= k < m ==> mask[k] == wildcard
          decreases |mask| - m
        {
          m := m + 1;
        }
        ForgetOlderWild(mask, name, wildcard, m0, n, ma, na, m);
        ma, na := m, n;
      }
      Unfold(mask, name, wildcard, m, n);
      MatchFromHere(mask, name, wildcard, m, n, ma, na);
      if CharAt(mask, m) == 0 {
        if CharAt(name, n) == 0 {
          return 0, matchCount;
        }
        if ma < 0 {
          return 1, matchCount;
        }
        m := m - 1;
        while m > 0 && mask[m] == QUESTION
          invariant ma - 1 <= m < |mask| && forall k :: m < k < |mask| ==> mask[k] == QUESTION
        {
          m := m - 1;
        }
        if mask[m] == wildcard {
          TrailingQuestions(mask, name, wildcard, n, ma, na);
          return 0, matchCount;
        }
        Backtrack(mask, name, wildcard, |mask|, n, ma, na);
        m, na := ma, na + 1;
        n := na;
      } else if CharAt(name, n) == 0 {
        NameExhausted(mask, name, wildcard, m, n, ma, na);
        return 1, matchCount;
      }
      if !CharMatches(mask[m], name[n]) {
        Unfold(mask, name, wildcard, m, n);
        MatchFromHere(mask, name, wildcard, m, n, ma, na);
        if ma < 0 {
          return 1, matchCount;
        }
        Backtrack(mask, name, wildcard, m, n, ma, na);
        m, na := ma, na + 1;
        n := na;
      } else {
        OneCharFurther(mask, name, wildcard, m, n, ma, na);
        m, n, matchCount := m + 1, n + 1, matchCount + 1;
      }
    }
  }

  lemma Whole(mask: seq<byte>, name: seq<byte>, w: byte)
    ensures Pending(mask, name, w, 0, 0, -1, 0) == Matches(mask, name, w)
  {
    assert mask[0..] == mask && name[0..] == name;
  }

  // ---- match: prefixes "*!" and "*@" are skipped up to the first '!' or '@' ----

  datatype Stripped = NoMatch | Rest(mask: seq<byte>, name: seq<byte>)

  /** Where c first occurs. */
  function First(name: seq<byte>, c: byte): (i: nat)
    requires c in name
    ensures i < |name| && name[i] == c && c !in name[..i]
  {
    if name[0] == c then 0
    else
      assert c in name[1..];
      var i := 1 + First(name[1..], c);
      assert name[..i] == [name[0]] + name[1..][..i - 1];
      i
  }

  predicate HasPrefix(mask: seq<byte>, c: byte) {
    |mask| >= 2 && mask[0] == STAR && mask[1] == c
  }

  /** One of the two skipping steps. */
  function Skip(mask: seq<byte>, name: seq<byte>, c: byte): Stripped {
    if !HasPrefix(mask, c) then Rest(mask, name)
    else if c !in name then NoMatch
    else Rest(mask[2..], name[First(name, c) + 1..])
  }

  /** What match computes: skip to the first '!', then to the first '@', then match2. */
  predicate SkippingMatches(mask: seq<byte>, name: seq<byte>) {
    var s := Skip(mask, name, BANG);
    s.Rest? &&
    var t := Skip(s.mask, s.name, AT);
    t.Rest? && Matches(t.mask, t.name, STAR)
  }

  /** The skipping step of match, by pointer. */
  method SkipTo(name: seq<byte>, c: byte) returns (n: nat)
    requires CString(name) && c != 0
    ensures n <= |name|
    ensures c in name ==> n == First(name, c)
    ensures c !in name ==> n == |name|
  {
    n := 0;
    while CharAt(name, n) != c && CharAt(name, n) != 0
      invariant n <= |name| && c !in name[..n]
      decreases |name| - n
    {
      n := n + 1;
    }
    if c in name {
      FirstUnique(name, c, n);
    }
  }

  lemma FirstUnique(name: seq<byte>, c: byte, n: nat)
    requires c in name && n <= |name| && c !in name[..n] && (n < |name| ==> name[n] == c)
    ensures n == First(name, c)
  {
  }

  method Match(mask0: seq<byte>, name0: seq<byte>) returns (r: int)
    requires CString(mask0) && CString(name0)
    ensures r == 0 || r == 1
    ensures r == 0 <==> SkippingMatches(mask0, name0)
  {
    hide Matches, First;
    var mask, name := mask0, name0;
    if |mask| >= 2 && mask[0] == STAR && mask[1] == BANG {
      mask := mask[2..];
      var n := SkipTo(name, BANG);
      if n == |name| {
        return 1;
      }
      name := name[n + 1..];
    }
    if |mask| >= 2 && mask[0] == STAR && mask[1] == AT {
      mask := mask[2..];
      var n := SkipTo(name, AT);
      if n == |name| {
        return 1;
      }
      name := name[n + 1..];
    }
    var matchCount;
    r, matchCount := Match2(mask, name, STAR);
  }

  /** How often c occurs. */
  function Count(name: seq<byte>, c: byte): nat {
    if name == [] then 0 else (if name[0] == c then 1 else 0) + Count(name[1..], c)
  }

  /** A mask "*c..." matches exactly if the part after "*c" matches after some c. */
  lemma {:induction false} StarCharMatches(mask: seq<byte>, name: seq<byte>, c: byte)
    requires HasPrefix(mask, c) && (c == BANG || c == AT)
    ensures Matches(mask, name, STAR) <==>
            exists p :: 0 <= p < |name| && name[p] == c && Matches(mask[2..], name[p + 1..], STAR)
    decreases |name|
  {
    assert mask[1..][1..] == mask[2..];
    if name != [] {
      StarCharMatches(mask, name[1..], c);
      if p :| 0 <= p < |name[1..]| && name[1..][p] == c && Matches(mask[2..], name[1..][p + 1..], STAR) {
        assert name[1..][p + 1..] == name[p + 2..];
        assert name[p + 1] == c && Matches(mask[2..], name[p + 1 + 1..], STAR);
      }
      if p :| 0 <= p < |name| && name[p] == c && Matches(mask[2..], name[p + 1..], STAR) {
        if p > 0 {
          assert name[1..][p..] == name[p + 1..];
          assert name[1..][p - 1] == c;
          assert Matches(mask[2..], name[1..][p - 1 + 1..], STAR);
        }
      }
    }
  }

  lemma {:induction false} CountOnce(name: seq<byte>, c: byte, p: nat)
    requires Count(name, c) <= 1 && p < |name| && name[p] == c
    ensures p == First(name, c)
    decreases |name|
  {
    if p > 0 {
      assert name[1..][p - 1] == c;
      CountPositive(name[1..], c);
      CountOnce(name[1..], c, p - 1);
    } else {
      assert name[0] == c;
    }
  }

  lemma {:induction false} CountPositive(name: seq<byte>, c: byte)
    requires c in name
    ensures Count(name, c) >= 1
    decreases |name|
  {
    if name[0] != c {
      assert c in name[1..];
      CountPositive(name[1..], c);
    }
  }

  lemma {:induction false} CountSuffix(name: seq<byte>, c: byte, k: nat)
    requires k <= |name|
    ensures Count(name[k..], c) <= Count(name, c)
    decreases k
  {
    if k > 0 {
      CountSuffix(name[1..], c, k - 1);
      assert name[1..][k - 1..] == name[k..];
    } else {
      assert name[0..] == name;
    }
  }

  /** A match after skipping is a match of the mask as it stands. */
  lemma SkipIsSound(mask: seq<byte>, name: seq<byte>, c: byte)
    requires c == BANG || c == AT
    requires var s := Skip(mask, name, c); s.Rest? && Matches(s.mask, s.name, STAR)
    ensures Matches(mask, name, STAR)
  {
    if HasPrefix(mask, c) {
      StarCharMatches(mask, name, c);
      var p := First(name, c);
      assert name[p] == c && Matches(mask[2..], name[p + 1..], STAR);
    }
  }

  /** With at most one c in the name, skipping loses nothing. */
  lemma SkipIsExact(mask: seq<byte>, name: seq<byte>, c: byte)
    requires (c == BANG || c == AT) && Count(name, c) <= 1
    ensures var s := Skip(mask, name, c);
            Matches(mask, name, STAR) <==> s.Rest? && Matches(s.mask, s.name, STAR)
  {
    if HasPrefix(mask, c) {
      StarCharMatches(mask, name, c);
      if p :| 0 <= p < |name| && name[p] == c && Matches(mask[2..], name[p + 1..], STAR) {
        CountOnce(name, c, p);
      }
    }
  }

  /** match returning 0 means the unstripped mask matches. */
  lemma SkippingIsSound(mask: seq<byte>, name: seq<byte>)
    requires SkippingMatches(mask, name)
    ensures Matches(mask, name, STAR)
  {
    hide Matches;
    var s := Skip(mask, name, BANG);
    SkipIsSound(s.mask, s.name, AT);
    SkipIsSound(mask, name, BANG);
  }

  /** A mask "*c" followed by as many '?' as there are characters after the last c. */
  function LastProbe(c: byte, len: nat): seq<byte> {
    [STAR, c] + seq(len, i => QUESTION)
  }

  lemma {:induction false} QuestionsMatch(name: seq<byte>, len: nat)
    ensures Matches(seq(len, i => QUESTION), name, STAR) <==> |name| == len
    decreases len
  {
    if len > 0 {
      var qs := seq(len, i => QUESTION);
      assert qs[1..] == seq(len - 1, i => QUESTION);
      if name != [] {
        QuestionsMatch(name[1..], len - 1);
      }
    }
  }

  /** With a second c in the name, a mask exists that the name matches but skipping misses. */
  lemma ProbeSeparates(name: seq<byte>, c: byte, p: nat)
    requires (c == BANG || c == AT) && p < |name| && name[p] == c && First(name, c) < p
    ensures Matches(LastProbe(c, |name| - p - 1), name, STAR)
    ensures !SkippingMatches(LastProbe(c, |name| - p - 1), name)
  {
    var len := |name| - p - 1;
    var mask := LastProbe(c, len);
    var qs := seq(len, i => QUESTION);
    assert mask[2..] == qs;
    StarCharMatches(mask, name, c);
    QuestionsMatch(name[p + 1..], len);
    assert name[p] == c && Matches(mask[2..], name[p + 1..], STAR);
    QuestionsMatch(name[First(name, c) + 1..], len);
  }

  lemma {:induction false} SecondOccurrence(name: seq<byte>, c: byte) returns (p: nat)
    requires Count(name, c) >= 2
    ensures p < |name| && name[p] == c && c in name && First(name, c) < p
    decreases |name|
  {
    if name[0] == c {
      assert Count(name[1..], c) >= 1;
      var q := SomeOccurrence(name[1..], c);
      p := q + 1;
    } else {
      var q := SecondOccurrence(name[1..], c);
      p := q + 1;
    }
  }

  lemma {:induction false} SomeOccurrence(name: seq<byte>, c: byte) returns (p: nat)
    requires Count(name, c) >= 1
    ensures p < |name| && name[p] == c
    decreases |name|
  {
    if name[0] == c {
      p := 0;
    } else {
      p := SomeOccurrence(name[1..], c);
      p := p + 1;
    }
  }

  /** The two readings agree on every mask for exactly those names in which '!' and '@' occur at
      most once each. */
  lemma SkippingAgreesExactly(name: seq<byte>)
    ensures (forall mask: seq<byte> :: SkippingMatches(mask, name) <==> Matches(mask, name, STAR))
       <==> Count(name, BANG) <= 1 && Count(name, AT) <= 1
  {
    if Count(name, BANG) <= 1 && Count(name, AT) <= 1 {
      forall mask: seq<byte> ensures SkippingMatches(mask, name) <==> Matches(mask, name, STAR) {
        SkippingExactOnce(mask, name);
      }
    } else {
      var c := if Count(name, BANG) > 1 then BANG else AT;
      var p := SecondOccurrence(name, c);
      ProbeSeparates(name, c, p);
    }
  }

  lemma SkippingExactOnce(mask: seq<byte>, name: seq<byte>)
    requires Count(name, BANG) <= 1 && Count(name, AT) <= 1
    ensures SkippingMatches(mask, name) <==> Matches(mask, name, STAR)
  {
    hide Matches;
    SkipIsExact(mask, name, BANG);
    var s := Skip(mask, name, BANG);
    if s.Rest? {
      if HasPrefix(mask, BANG) {
        CountSuffix(name, AT, First(name, BANG) + 1);
      }
      SkipIsExact(s.mask, s.name, AT);
    }
  }

  // ---- what a mask without further wildcards means ----

  predicate Letter(c: byte) {
    65 <= c <= 90 || 97 <= c <= 122
  }

  /** A mask character other than '?' and '_' stands for itself, and a letter for both its cases; '_'
      stands also for a space and '?' for anything. */
  lemma CharMatchesExactly(m: byte, n: byte)
    ensures m != 63 && m != 95 ==>
              (CharMatches(m, n) <==> m == n || (Letter(m) && Letter(n) && (m as int - n == 32 || n as int - m == 32)))
    ensures CharMatches(95, n) <==> n == 95 || n == 32
    ensures CharMatches(63, n)
  {
  }

  /** Two texts of one length that match character by character. */
  predicate Pointwise(mask: seq<byte>, name: seq<byte>) {
    |mask| == |name| && forall i :: 0 <= i < |mask| ==> CharMatches(mask[i], name[i])
  }

  lemma {:induction false} PlainMask(mask: seq<byte>, name: seq<byte>, w: byte)
    requires w !in mask
    ensures Matches(mask, name, w) <==> Pointwise(mask, name)
    decreases |mask|
  {
    hide CharMatches;
    if mask != [] {
      assert mask[0] != w && w !in mask[1..];
      if name != [] {
        PlainMask(mask[1..], name[1..], w);
        PointwiseStep(mask, name);
      }
    }
  }

  lemma PointwiseStep(mask: seq<byte>, name: seq<byte>)
    requires mask != [] && name != []
    ensures Pointwise(mask, name) <==> CharMatches(mask[0], name[0]) && Pointwise(mask[1..], name[1..])
  {
    hide CharMatches;
    if CharMatches(mask[0], name[0]) && Pointwise(mask[1..], name[1..]) {
      forall i | 0 <= i < |mask| ensures CharMatches(mask[i], name[i]) {
        if i > 0 {
          assert CharMatches(mask[1..][i - 1], name[1..][i - 1]);
        }
      }
    }
  }

  lemma {:induction false} WildThenPlain(b: seq<byte>, name: seq<byte>, w: byte)
    requires w !in b
    ensures Matches([w] + b, name, w) <==> |name| >= |b| && Pointwise(b, name[|name| - |b|..])
    decreases |name|
  {
    hide Pointwise, CharMatches;
    var mask := [w] + b;
    assert mask[0] == w && mask[1..] == b;
    PlainMask(b, name, w);
    LengthsAgree(b, name);
    if name != [] {
      WildThenPlain(b, name[1..], w);
      if |name| > |b| {
        assert name[1..][|name| - 1 - |b|..] == name[|name| - |b|..];
      } else if |name| == |b| {
        assert name[0..] == name;
      }
    }
  }

  lemma LengthsAgree(b: seq<byte>, name: seq<byte>)
    ensures Pointwise(b, name) ==> |b| == |name|
    ensures |b| == |name| ==> name[|name| - |b|..] == name
  {
  }

  /** A mask with one wildcard matches exactly the names that begin with what is before it and end
      with what is after it, without overlap. */
  lemma {:induction false} AroundWildcard(a: seq<byte>, b: seq<byte>, name: seq<byte>, w: byte)
    requires w !in a && w !in b
    ensures Matches(a + [w] + b, name, w) <==>
            |name| >= |a| + |b| && Pointwise(a, name[..|a|]) && Pointwise(b, name[|name| - |b|..])
    decreases |a|
  {
    hide Pointwise, CharMatches;
    if a == [] {
      assert a + [w] + b == [w] + b;
      NothingIsPointwise();
      WildThenPlain(b, name, w);
    } else {
      var mask := a + [w] + b;
      assert mask[0] == a[0] && mask[1..] == a[1..] + [w] + b && a[0] != w && w !in a[1..];
      if name != [] {
        AroundWildcard(a[1..], b, name[1..], w);
        if |name| >= |a| + |b| {
          PointwiseStep(a, name[..|a|]);
          assert name[..|a|][1..] == name[1..][..|a| - 1];
          assert name[1..][|name| - 1 - |b|..] == name[|name| - |b|..];
        }
      }
    }
  }

  lemma NothingIsPointwise()
    ensures Pointwise([], [])
  {
  }
}
