/** Responses that may finish in any order are sent in the order of their requests: the waiting
    buffer of the statistics server. */
module ResponseOrder {

  /** All indices below w have arrived and w has not. */
  ghost predicate LeastMissing<B>(arrived: map<nat, B>, w: nat) {
    (forall i :: 0 <= i < w ==> i in arrived) && w !in arrived
  }

  const INT_MAX: nat := 0x7fff_ffff

  class WaitBuffer<B> {
    var waitIndex: nat
    var topIndex: nat
    var bufferMap: map<nat, B>
    var sent: seq<B>
    ghost var arrived: map<nat, B>

    constructor ()
      ensures Valid() && arrived == map[] && sent == [] && topIndex == 0
    {
      waitIndex, topIndex, bufferMap, sent, arrived := 0, 0, map[], [], map[];
    }

    /** The state while waitIndex may still have to be drained. */
    ghost predicate Draining()
      reads this
    {
      && (forall i :: i in arrived ==> i <= topIndex)
      && |sent| == waitIndex
      && (forall i :: 0 <= i < waitIndex ==> i in arrived && sent[i] == arrived[i])
      && (forall i :: i in bufferMap <==> i in arrived && i >= waitIndex)
      && (forall i :: i in bufferMap ==> bufferMap[i] == arrived[i])
    }

    /** What has been sent is exactly the buffers 0 .. w - 1 in order, where w is the least index
        that has not arrived; the map holds exactly the arrived indices above w. */
    ghost predicate Valid()
      reads this
    {
      Draining() && LeastMissing(arrived, waitIndex)
    }

    /** SendOrWaitBuffer */
    method SendOrWait(index: nat, buffer: B)
      requires Valid() && index !in arrived && index <= INT_MAX && topIndex <= INT_MAX
      modifies this
      ensures Valid() && arrived == old(arrived)[index := buffer] && topIndex <= INT_MAX
    {
      arrived := arrived[index := buffer];
      if index > topIndex {
        topIndex := index;
      }
      if index == waitIndex {
        bufferMap := bufferMap - {index};
        sent := sent + [buffer];
        waitIndex := waitIndex + 1;
      } else {
        bufferMap := bufferMap[index := buffer];
      }
      Drain();
    }

    /** The draining loop.  Its countdown from topIndex never ends it early: there are at most
        topIndex buffers left to send once index 0 has been sent. */
    method Drain()
      requires Draining() && (waitIndex == 0 ==> 0 !in arrived)
      modifies this`sent, this`bufferMap, this`waitIndex
      ensures Valid()
    {
      ghost var w := waitIndex;
      var top: int := topIndex;
      while top > 0
        invariant Draining() && top >= 0 && top == topIndex - (waitIndex - w)
        invariant waitIndex == 0 ==> 0 !in arrived
        invariant w == 0 ==> waitIndex == 0
      {
        if waitIndex in bufferMap {
          sent := sent + [bufferMap[waitIndex]];
          bufferMap := bufferMap - {waitIndex};
          waitIndex := waitIndex + 1;
          top := top - 1;
        } else {
          break;
        }
      }
    }
  }

  /** Whatever the order in which distinct responses arrive, the packets sent are the responses
      0 .. w - 1 in order, w being the least index that did not arrive. */
  method Deliver<B>(arrivals: seq<(nat, B)>) returns (sent: seq<B>)
    requires forall n :: 0 <= n < |arrivals| ==> arrivals[n].0 <= INT_MAX
    requires forall n, m :: 0 <= n < m < |arrivals| ==> arrivals[n].0 != arrivals[m].0
    ensures forall i :: 0 <= i < |sent| ==> (i, sent[i]) in arrivals
    ensures forall n :: 0 <= n < |arrivals| ==> arrivals[n].0 != |sent|
  {
    var q := new WaitBuffer<B>();
    for n := 0 to |arrivals|
      invariant q.Valid() && q.topIndex <= INT_MAX && fresh(q)
      invariant forall k :: k in q.arrived ==> exists i :: 0 <= i < n && arrivals[i] == (k, q.arrived[k])
      invariant forall i :: 0 <= i < n ==> arrivals[i].0 in q.arrived
    {
      assert arrivals[n] == (arrivals[n].0, arrivals[n].1);
      q.SendOrWait(arrivals[n].0, arrivals[n].1);
    }
    sent := q.sent;
  }
}
