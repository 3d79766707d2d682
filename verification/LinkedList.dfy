/** The pointer-linked list and the lists of visible users built on it, where nodes are removed
    and freed while the list is being walked. */
module LinkedList {

  class Node<D> {
    const data: D
    var next: Node?<D>
    /** Not yet freed. */
    ghost var alive: bool

    constructor (data: D)
      ensures this.data == data && next == null && alive
    {
      this.data := data;
      next, alive := null, true;
    }

    method GetNext() returns (n: Node?<D>)
      requires alive
      ensures n == next
    {
      n := next;
    }

    method SetNext(item: Node?<D>)
      requires alive
      modifies this`next
      ensures next == item
    {
      next := item;
    }

    ghost method Delete()
      requires alive
      modifies this`alive
      ensures !alive
    {
      alive := false;
    }
  }

  /** The sequence without an element. */
  function Remove<X(==)>(s: seq<X>, x: X): seq<X> {
    if s == [] then [] else if s[0] == x then s[1..] else [s[0]] + Remove(s[1..], x)
  }

  /** The elements that do not match. */
  function Without<X>(s: seq<X>, drop: X -> bool): seq<X> {
    if s == [] then [] else (if drop(s[0]) then [] else [s[0]]) + Without(s[1..], drop)
  }

  ghost predicate NoDuplicates<X>(s: seq<X>) {
    forall i, j :: 0 <= i < j < |s| ==> s[i] != s[j]
  }

  lemma {:induction false} RemoveAt<X>(s: seq<X>, i: nat)
    requires NoDuplicates(s) && i < |s|
    ensures Remove(s, s[i]) == s[..i] + s[i + 1..]
  {
    if i > 0 {
      RemoveAt(s[1..], i - 1);
      assert s[i] == s[1..][i - 1] && s[0] != s[i];
      assert s[..i] == [s[0]] + s[1..][..i - 1];
    }
  }

  lemma {:induction false} RemoveAbsent<X>(s: seq<X>, x: X)
    requires x !in s
    ensures Remove(s, x) == s
  {
    if s != [] {
      RemoveAbsent(s[1..], x);
      assert s == [s[0]] + s[1..];
    }
  }

  /** The position of an element, or the length. */
  ghost function IndexOf<X>(s: seq<X>, x: X): (i: nat)
    ensures i <= |s| && (i < |s| ==> s[i] == x) && (i == |s| ==> x !in s)
  {
    if s == [] || s[0] == x then 0 else IndexOf(s[1..], x) + 1
  }

  ghost function NodeAt<D>(nodes: seq<Node<D>>, i: nat): Node?<D> {
    if i < |nodes| then nodes[i] else null
  }

  /** The nodes whose data do not match. */
  ghost function Kept<D>(nodes: seq<Node<D>>, drop: D -> bool): seq<Node<D>> {
    if nodes == [] then [] else (if drop(nodes[0].data) then [] else [nodes[0]]) + Kept(nodes[1..], drop)
  }

  lemma {:induction false} KeptSnoc<D>(nodes: seq<Node<D>>, n: Node<D>, drop: D -> bool)
    ensures Kept(nodes + [n], drop) == Kept(nodes, drop) + if drop(n.data) then [] else [n]
  {
    if nodes == [] {
      assert nodes + [n] == [n] && [n][1..] == [];
    } else {
      KeptSnoc(nodes[1..], n, drop);
      assert (nodes + [n])[1..] == nodes[1..] + [n];
    }
  }

  lemma NodeAtIs<D>(nodes: seq<Node<D>>, i: nat)
    ensures NodeAt(nodes, i) == if i < |nodes| then nodes[i] else null
  {
  }

  ghost function Successor<D>(item: Node<D>): set<Node<D>>
    reads item
  {
    if item.next == null then {} else {item.next}
  }

  /** A node that has not been freed and points to the next one. */
  ghost predicate Linked<D>(nodes: seq<Node<D>>, i: nat)
    requires i < |nodes|
    reads nodes
  {
    nodes[i].alive && nodes[i].next == NodeAt(nodes, i + 1)
  }

  /** The pointers spell out the sequence of nodes. */
  ghost predicate Chain<D>(head: Node?<D>, nodes: seq<Node<D>>)
    reads nodes
  {
    && NoDuplicates(nodes)
    && head == NodeAt(nodes, 0)
    && forall i :: 0 <= i < |nodes| ==> Linked(nodes, i)
  }

  lemma RemoveKeepsDistinct<X>(s: seq<X>, i: nat)
    requires NoDuplicates(s) && i < |s|
    ensures NoDuplicates(s[..i] + s[i + 1..])
    ensures forall k :: 0 <= k < |s| && k != i ==> s[k] != s[i]
    ensures i > 0 ==> forall k :: 0 <= k < |s| && k != i - 1 ==> s[k] != s[i - 1]
  {
  }

  lemma DropKeepsDistinct<X>(s: seq<X>)
    requires NoDuplicates(s) && s != []
    ensures NoDuplicates(s[1..])
  {
    var t := s[1..];
    forall i, j | 0 <= i < j < |t| ensures t[i] != t[j] {
      assert s[i + 1] != s[j + 1];
    }
  }

  class Head<D> {
    var head: Node?<D>
    ghost var nodes: seq<Node<D>>
    /** Every node that was ever in the list. */
    ghost var owned: set<Node<D>>

    constructor ()
      ensures Valid() && nodes == []
    {
      head, nodes, owned := null, [], {};
    }

    ghost predicate Valid()
      reads this, nodes
    {
      Chain(head, nodes) && forall i :: 0 <= i < |nodes| ==> nodes[i] in owned
    }

    lemma At(i: nat)
      requires Valid()
      ensures NoDuplicates(nodes) && head == NodeAt(nodes, 0)
      ensures i < |nodes| ==> nodes[i].alive && nodes[i].next == NodeAt(nodes, i + 1) && nodes[i] in owned
    {
      assert i < |nodes| ==> Linked(nodes, i);
    }

    lemma Alive()
      requires Valid()
      ensures forall i :: 0 <= i < |nodes| ==> nodes[i].alive && nodes[i] in owned
    {
      forall i | 0 <= i < |nodes| ensures nodes[i].alive {
        assert Linked(nodes, i);
      }
    }

    /** FindPrevious */
    method FindPrevious(item: Node<D>) returns (found: bool, out: Node?<D>, ghost at: nat)
      requires Valid()
      ensures found ==> at + 1 < |nodes| && nodes[at] == out && nodes[at + 1] == item
      ensures !found ==> out == null && item !in nodes[if nodes == [] then 0 else 1..]
    {
      hide NoDuplicates;
      var p := head;
      ghost var i := 0;
      while p != null
        invariant 0 <= i <= |nodes| && p == NodeAt(nodes, i)
        invariant forall k :: 1 <= k <= i && k < |nodes| ==> nodes[k] != item
        decreases |nodes| - i
      {
        assert Linked(nodes, i);
        var next := p.GetNext();
        if next == item {
          return true, p, i;
        }
        p := next;
        i := i + 1;
      }
      return false, null, 0;
    }

    /** AddToList */
    method AddToList(item: Node<D>)
      requires Valid() && item !in nodes && item.next == null && item.alive
      modifies this, owned`next
      ensures Valid() && nodes == old(nodes) + [item] && owned == old(owned) + {item}
    {
      if head == null {
        head := item;
        nodes := [item];
        owned := owned + {item};
        assert Linked(nodes, 0);
      } else {
        var last := Last();
        assert Linked(nodes, |nodes| - 1);
        last.SetNext(item);
        ghost var longer := nodes + [item];
        forall i | 0 <= i < |longer| ensures Linked(longer, i) {
          assert i < |nodes| ==> old(Linked(nodes, i));
        }
        nodes := longer;
        owned := owned + {item};
      }
    }

    /** The walk to the last node. */
    method Last() returns (p: Node<D>)
      requires Valid() && head != null
      ensures nodes != [] && p == nodes[|nodes| - 1]
    {
      p := head;
      ghost var i := 0;
      assert Linked(nodes, 0);
      var next := p.GetNext();
      while next != null
        invariant 0 <= i < |nodes| && p == nodes[i] && next == NodeAt(nodes, i + 1)
        decreases |nodes| - i
      {
        p := next;
        i := i + 1;
        assert Linked(nodes, i);
        next := p.GetNext();
      }
    }

    /** RemoveFromList.  The item need not be in the list.  Its own pointer is left alone, and so
        is its successor's, which is only set to what it was. */
    method RemoveFromList(item: Node<D>)
      requires Valid() && item.alive
      requires item.next != null ==> item.next.alive
      modifies this, owned`next, Successor(item)`next
      ensures Valid() && owned == old(owned) && nodes == Remove(old(nodes), item)
      ensures item.next == old(item.next)
      ensures old(item.next) != null ==> unchanged(old(item.next))
    {
      if item == head {
        assert Linked(nodes, 0);
        head := item.GetNext();
        ghost var rest := nodes[1..];
        DropKeepsDistinct(nodes);
        forall k | 0 <= k < |rest| ensures Linked(rest, k) {
          assert old(Linked(nodes, k + 1));
        }
        nodes := rest;
      } else {
        var next := item.GetNext();
        if next != null {
          var after := next.GetNext();
          next.SetNext(after);
          assert forall k :: 0 <= k < |nodes| && old(Linked(nodes, k)) ==> Linked(nodes, k);
        }
        Detach(item, next);
      }
    }

    /** Set the pointer of the node before the item, if there is one. */
    method Detach(item: Node<D>, next: Node?<D>)
      requires Valid() && item != head && next == item.next
      modifies this`nodes, owned`next
      ensures Valid() && owned == old(owned) && nodes == Remove(old(nodes), item)
      ensures item.next == old(item.next) && (next != null ==> unchanged(next))
    {
      hide NoDuplicates, Remove;
      var found, previous, at := FindPrevious(item);
      if found {
        RemoveAt(nodes, at + 1);
        RemoveKeepsDistinct(nodes, at + 1);
        assert Linked(nodes, at);
        assert Linked(nodes, at + 1);
        previous.SetNext(next);
        ghost var rest := nodes[..at + 1] + nodes[at + 2..];
        forall k | 0 <= k < |rest| ensures Linked(rest, k) {
          assert old(Linked(nodes, if k <= at then k else k + 1));
        }
        nodes := rest;
      } else {
        RemoveAbsent(nodes, item);
      }
    }
  
    /** The callback of the removing walks. */
    method RemoveAndFree(info: Node<D>, matches: D -> bool) returns (goOn: bool)
      requires Valid() && info in nodes
      modifies this, owned`next, info`alive
      ensures Valid() && owned == old(owned) && goOn && info.next == old(info.next)
      ensures nodes == if matches(info.data) then Remove(old(nodes), info) else old(nodes)
      ensures info.alive <==> !matches(info.data)
    {
      hide NoDuplicates, Linked, Chain;
      ghost var i := IndexOf(nodes, info);
      At(i);
      At(i + 1);
      if matches(info.data) {
        assert info.next != null ==> info.next == nodes[i + 1];
        RemoveAt(nodes, i);
        GoneAt(nodes, i);
        RemoveFromList(info);
        info.Delete();
      }
      return true;
    }

    /** The state of a removing walk that has reached position i of what the list was: before
        it the matching nodes are gone and freed, from there on nothing has changed. */
    ghost predicate Walking(orig: seq<Node<D>>, i: nat, matches: D -> bool)
      requires i <= |orig|
      reads this, nodes, orig
    {
      && Valid() && NoDuplicates(orig) && Walked(orig, i, nodes, matches)
      && forall k :: 0 <= k < |orig| ==> orig[k] in owned && (orig[k].alive <==> !(k < i && matches(orig[k].data)))
    }

    /** The walk has visited so much of what the list was and stands on p. */
    ghost predicate AtRound(orig: seq<Node<D>>, visited: seq<Node<D>>, p: Node?<D>, matches: D -> bool)
      reads this, nodes, orig
    {
      |visited| <= |orig| && visited == orig[..|visited|]
      && p == NodeAt(orig, |visited|) && Walking(orig, |visited|, matches)
    }

    /** One round of the loop of Iterate. */
    method Visit(p: Node<D>, matches: D -> bool, ghost orig: seq<Node<D>>, ghost visited: seq<Node<D>>)
      returns (goOn: bool, next: Node?<D>, ghost visitedNow: seq<Node<D>>)
      requires AtRound(orig, visited, p, matches)
      modifies this, owned
      ensures visitedNow == visited + [p] && |visitedNow| <= |orig|
      ensures owned == old(owned) && AtRound(orig, visitedNow, next, matches)
      ensures goOn
    {
      hide NoDuplicates, Linked, Kept, Remove, Chain, Walked, Valid;
      At(0);
      ghost var at := StillAhead(orig, |visited|, nodes, matches);
      At(at);
      next := p.GetNext();
      goOn := RemoveAndFree(p, matches);
      visitedNow := visited + [p];
    }

    /** Iterate with a callback that removes and frees the nodes that match and goes on: every
        node is visited once, in order, no freed node is touched, and exactly the nodes that do
        not match remain. */
    method RemoveMatching(matches: D -> bool) returns (ghost visited: seq<Node<D>>)
      requires Valid()
      modifies this, owned
      ensures Valid() && owned == old(owned) && nodes == Kept(old(nodes), matches)
      ensures visited == old(nodes)
      ensures forall n :: n in old(nodes) ==> (n.alive <==> !matches(n.data))
    {
      ghost var orig := nodes;
      StartWalk(matches);
      hide *;
      visited := [];
      var p := head;
      while p != null
        invariant owned == old(owned) && AtRound(orig, visited, p, matches) && |visited| <= |orig|
        decreases |orig| - |visited|
      {
        var goOn, next;
        goOn, next, visited := Visit(p, matches, orig, visited);
        if !goOn {
          break;
        }
        p := next;
      }
      EndWalk(orig, visited, matches);
    }

    lemma StartWalk(matches: D -> bool)
      requires Valid()
      ensures AtRound(nodes, [], head, matches)
    {
      Alive();
      WalkedNothing(nodes, matches);
    }

    lemma EndWalk(orig: seq<Node<D>>, visited: seq<Node<D>>, matches: D -> bool)
      requires AtRound(orig, visited, null, matches)
      ensures Valid() && nodes == Kept(orig, matches) && visited == orig
      ensures forall n :: n in orig ==> (n.alive <==> !matches(n.data))
    {
      NodeAtIs(orig, |visited|);
      WalkedAll(orig, nodes, matches);
    }

    /** Iterate with a callback that stops at the first match. */
    method Find(matches: D -> bool) returns (found: bool, ghost visited: seq<Node<D>>)
      requires Valid()
      ensures found <==> exists n :: n in nodes && matches(n.data)
      ensures visited <= nodes
      ensures forall k :: 0 <= k < |visited| ==> (matches(visited[k].data) <==> found && k == |visited| - 1)
    {
      hide NoDuplicates;
      visited := [];
      found := false;
      var p := head;
      while p != null
        invariant |visited| <= |nodes| && visited == nodes[..|visited|] && p == NodeAt(nodes, |visited|) && !found
        invariant forall k :: 0 <= k < |visited| ==> !matches(visited[k].data)
        decreases |nodes| - |visited|
      {
        assert Linked(nodes, |visited|);
        var next := p.GetNext();
        visited := visited + [p];
        if matches(p.data) {
          found := true;
          break;
        }
        p := next;
      }
    }
  }

  lemma GoneAt<X>(s: seq<X>, i: nat)
    requires NoDuplicates(s) && i < |s|
    ensures s[i] !in s[..i] + s[i + 1..]
  {
  }

  /** The list while a walk stands at position i of what it was: the kept nodes before the
      position, and everything from there on. */
  ghost predicate Walked<D>(orig: seq<Node<D>>, i: nat, nodes: seq<Node<D>>, drop: D -> bool)
    requires i <= |orig|
  {
    nodes == Kept(orig[..i], drop) + orig[i..]
  }

  lemma WalkedNothing<D>(orig: seq<Node<D>>, drop: D -> bool)
    ensures Walked(orig, 0, orig, drop)
  {
  }

  lemma WalkedAll<D>(orig: seq<Node<D>>, nodes: seq<Node<D>>, drop: D -> bool)
    requires Walked(orig, |orig|, nodes, drop)
    ensures nodes == Kept(orig, drop)
  {
    assert orig[..|orig|] == orig;
  }

  /** The walk stands on a node that is still in the list, behind those it has kept. */
  lemma StillAhead<D>(orig: seq<Node<D>>, i: nat, nodes: seq<Node<D>>, drop: D -> bool) returns (at: nat)
    requires i < |orig| && NoDuplicates(nodes) && NoDuplicates(orig)
    requires Walked(orig, i, nodes, drop)
    ensures var p := orig[i];
            && at < |nodes| && nodes[at] == p
            && NodeAt(nodes, at + 1) == NodeAt(orig, i + 1)
            && orig[..i] + [p] == orig[..i + 1]
            && Walked(orig, i + 1, if drop(p.data) then Remove(nodes, p) else nodes, drop)
    ensures forall k :: 0 <= k < |orig| && k != i ==> orig[k] != orig[i]
  {
    hide Remove, Kept, NoDuplicates, Walked;
    WalkedIs(orig, i, nodes, drop);
    WalkedNext(orig, i, nodes, drop);
    at := |Kept(orig[..i], drop)|;
    RemoveAt(nodes, at);
    Elsewhere(orig, i);
  }

  lemma WalkedNext<D>(orig: seq<Node<D>>, i: nat, nodes: seq<Node<D>>, drop: D -> bool)
    requires i < |orig|
    ensures var kept, p, rest := Kept(orig[..i], drop), orig[i], orig[i + 1..];
            && orig[..i] + [p] == orig[..i + 1]
            && (drop(p.data) ==> Walked(orig, i + 1, kept + rest, drop))
            && (!drop(p.data) && nodes == kept + ([p] + rest) ==> Walked(orig, i + 1, nodes, drop))
  {
    hide Kept;
    var kept, p, rest := Kept(orig[..i], drop), orig[i], orig[i + 1..];
    KeptSnoc(orig[..i], p, drop);
    assert orig[..i] + [p] == orig[..i + 1];
    assert kept + [] == kept && kept + ([p] + rest) == kept + [p] + rest;
  }

  lemma WalkedIs<D>(orig: seq<Node<D>>, i: nat, nodes: seq<Node<D>>, drop: D -> bool)
    requires i <= |orig|
    ensures var kept := Kept(orig[..i], drop);
            && (Walked(orig, i, nodes, drop) <==> nodes == kept + orig[i..])
            && (i < |orig| && Walked(orig, i, nodes, drop) ==>
                && |kept| < |nodes| && nodes == kept + ([orig[i]] + orig[i + 1..])
                && nodes[..|kept|] == kept && nodes[|kept|] == orig[i] && nodes[|kept| + 1..] == orig[i + 1..])
  {
    hide Kept;
    if i < |orig| && Walked(orig, i, nodes, drop) {
      assert orig[i..] == [orig[i]] + orig[i + 1..];
    }
  }

  lemma Elsewhere<X>(s: seq<X>, i: nat)
    requires NoDuplicates(s) && i < |s|
    ensures forall k :: 0 <= k < |s| && k != i ==> s[k] != s[i]
  {
  }

  // ---- the visible users of a peer ----

  datatype Visibility = Visibility(userId: int, channelId: int)

  ghost function Data<D>(nodes: seq<Node<D>>): seq<D> {
    if nodes == [] then [] else [nodes[0].data] + Data(nodes[1..])
  }

  lemma {:induction false} DataOfKept<D>(nodes: seq<Node<D>>, drop: D -> bool)
    ensures Data(Kept(nodes, drop)) == Without(Data(nodes), drop)
  {
    if nodes != [] {
      DataOfKept(nodes[1..], drop);
      assert Data(nodes)[1..] == Data(nodes[1..]);
      var rest := Kept(nodes[1..], drop);
      assert ([nodes[0]] + rest)[1..] == rest && [] + rest == rest;
    }
  }

  lemma {:induction false} DataMembers<D>(nodes: seq<Node<D>>, d: D)
    ensures d in Data(nodes) <==> exists n :: n in nodes && n.data == d
  {
    if nodes != [] {
      DataMembers(nodes[1..], d);
      assert nodes == [nodes[0]] + nodes[1..];
    }
  }

  lemma {:induction false} DataSnoc<D>(nodes: seq<Node<D>>, n: Node<D>)
    ensures Data(nodes + [n]) == Data(nodes) + [n.data]
  {
    if nodes == [] {
      assert nodes + [n] == [n] && [n][1..] == [];
    } else {
      DataSnoc(nodes[1..], n);
      assert (nodes + [n])[1..] == nodes[1..] + [n];
    }
  }

  /** What is left is exactly what was there and does not match. */
  lemma {:induction false} WithoutMembers<X>(s: seq<X>, drop: X -> bool, x: X)
    ensures x in Without(s, drop) <==> x in s && !drop(x)
  {
    if s != [] {
      WithoutMembers(s[1..], drop, x);
      assert s == [s[0]] + s[1..];
    }
  }

  lemma WithoutExactly<X(!new)>(s: seq<X>, drop: X -> bool)
    ensures forall x :: x in Without(s, drop) <==> x in s && !drop(x)
  {
    forall x ensures x in Without(s, drop) <==> x in s && !drop(x) {
      WithoutMembers(s, drop, x);
    }
  }

  /** The three conditions under which entries are removed, and the one that is searched for. */
  function ByChannel(channelId: int): Visibility -> bool {
    (v: Visibility) => v.channelId == channelId
  }

  function ByUser(userId: int): Visibility -> bool {
    (v: Visibility) => v.userId == userId
  }

  function ByChannelUser(userId: int, channelId: int): Visibility -> bool {
    (v: Visibility) => v.channelId == channelId && v.userId == userId
  }

  /** The user has an entry, whatever the channel. */
  ghost predicate Sees(entries: seq<Visibility>, userId: int) {
    exists v :: v in entries && v.userId == userId
  }

  /** AddUserToAddressVisbilityList */
  method AddUser(list: Head<Visibility>, userId: int, channelId: int)
    requires list.Valid()
    modifies list, list.owned`next
    ensures list.Valid() && Data(list.nodes) == old(Data(list.nodes)) + [Visibility(userId, channelId)]
    ensures fresh(list.owned - old(list.owned))
  {
    var info := new Node(Visibility(userId, channelId));
    DataSnoc(list.nodes, info);
    list.AddToList(info);
  }

  method RemoveEntries(list: Head<Visibility>, matches: Visibility -> bool)
    requires list.Valid()
    modifies list, list.owned
    ensures list.Valid() && Data(list.nodes) == Without(old(Data(list.nodes)), matches)
    ensures list.owned == old(list.owned)
  {
    DataOfKept(list.nodes, matches);
    var _ := list.RemoveMatching(matches);
  }

  /** IsUserAddressVisible */
  method IsUserAddressVisible(list: Head<Visibility>, userId: int, globalOwner: bool) returns (visible: bool)
    requires list.Valid()
    ensures visible <==> globalOwner || Sees(Data(list.nodes), userId)
  {
    if globalOwner {
      return true;
    }
    var found, visited := list.Find(ByUser(userId));
    forall v ensures v in Data(list.nodes) <==> exists n :: n in list.nodes && n.data == v {
      DataMembers(list.nodes, v);
    }
    return found;
  }

  /** A user who leaves a channel is seen afterwards exactly if another channel still shows the
      user, and nobody else is affected; a user who quits is not seen, and nobody else is
      affected. */
  lemma WhoIsSeen(entries: seq<Visibility>, userId: int, channelId: int, other: int)
    ensures Sees(Without(entries, ByChannelUser(userId, channelId)), userId)
            <==> exists v :: v in entries && v.userId == userId && v.channelId != channelId
    ensures !Sees(Without(entries, ByUser(userId)), userId)
    ensures other != userId ==>
              (Sees(Without(entries, ByChannelUser(userId, channelId)), other) <==> Sees(entries, other))
    ensures other != userId ==> (Sees(Without(entries, ByUser(userId)), other) <==> Sees(entries, other))
    ensures Sees(Without(entries, ByChannel(channelId)), other)
            <==> exists v :: v in entries && v.userId == other && v.channelId != channelId
  {
    hide Without;
    WithoutExactly(entries, ByChannelUser(userId, channelId));
    WithoutExactly(entries, ByUser(userId));
    WithoutExactly(entries, ByChannel(channelId));
  }
}
