/** Consumer ownership (pkg/dispatcher/hash_dispatcher.go): which replica handles the status of a
    consumer, and that a consumer it gains is resynchronised. The consistent hash ring is some
    function from its members and a key to a member. */
module Dispatcher {
  import opened Wrappers

  function Ready(instances: seq<(string, bool)>): set<string>
  {
    set x | x in instances && x.1 :: x.0
  }

  lemma ReadyOneMore(instances: seq<(string, bool)>, i: nat)
    requires i < |instances|
    ensures Ready(instances[..i + 1])
         == Ready(instances[..i]) + if instances[i].1 then {instances[i].0} else {}
  {
    assert instances[..i + 1] == instances[..i] + [instances[i]];
  }

  lemma ReadyIff(instances: seq<(string, bool)>, i: string)
    ensures i in Ready(instances) <==> (i, true) in instances
  {
    var x := (i, true);
    if x in instances { assert x.0 in Ready(instances); }
    forall y | y in instances && y.1 && y.0 == i ensures y == x {}
  }

  class HashDispatcher {
    const id: string
    const locate: (set<string>, string) -> string
    var ring: set<string>
    var consumerSet: set<string>
    var queue: set<string>  // consumers whose status is to be resynchronised

    constructor (id: string, locate: (set<string>, string) -> string)
      ensures this.id == id && this.locate == locate
      ensures ring == {} && consumerSet == {} && queue == {}
    {
      this.id, this.locate, ring, consumerSet, queue := id, locate, {}, {}, {};
    }

    predicate Dispatch(consumer: string)
      reads this
    {
      consumer in consumerSet
    }

    /** updateConsumerSet: with a non empty ring exactly the located consumers stay or join, every
        joining one is queued first, and consumers that are no longer listed are left alone.
        `listed` is what the query for all consumers returns, if it does. */
    method UpdateConsumerSet(listed: Option<seq<string>>)
      modifies this`consumerSet, this`queue
      ensures ring == {} || listed.None? ==> consumerSet == old(consumerSet) && queue == old(queue)
      ensures ring != {} && listed.Some? ==>
                && (forall c :: c in listed.value ==> (c in consumerSet <==> locate(ring, c) == id))
                && (forall c :: c !in listed.value ==> (c in consumerSet <==> c in old(consumerSet)))
                && queue == old(queue) + (consumerSet - old(consumerSet))
    {
      if ring == {} || listed.None? { return; }
      var consumers := listed.value;
      var toAdd, toRemove: set<string> := {}, {};
      for i := 0 to |consumers|
        invariant consumerSet == old(consumerSet) && queue == old(queue) + toAdd
        invariant forall c :: c in toAdd <==> c in consumers[..i] && locate(ring, c) == id && c !in consumerSet
        invariant forall c :: c in toRemove <==> c in consumers[..i] && locate(ring, c) != id && c in consumerSet
      {
        var c := consumers[i];
        if locate(ring, c) == id {
          if c !in consumerSet {
            toAdd := toAdd + {c};
            queue := queue + {c};
          }
        } else if c in consumerSet {
          toRemove := toRemove + {c};
        }
      }
      assert consumers[..|consumers|] == consumers;
      consumerSet := consumerSet + toAdd;
      consumerSet := consumerSet - toRemove;
    }

    /** check: the ring becomes the ready instances, and the consumer set follows it. */
    method Check(found: Option<seq<(string, bool)>>, listed: Option<seq<string>>)
      modifies this
      ensures found.None? ==> ring == old(ring) && consumerSet == old(consumerSet) && queue == old(queue)
      ensures found.Some? ==> forall i :: i in ring <==> (i, true) in found.value
      ensures found.Some? && listed.Some? && ring != {} ==>
                && (forall c :: c in listed.value ==> (c in consumerSet <==> locate(ring, c) == id))
                && (forall c :: c !in listed.value ==> (c in consumerSet <==> c in old(consumerSet)))
      ensures listed.None? || ring == {} ==> consumerSet == old(consumerSet)
      ensures queue == old(queue) + (consumerSet - old(consumerSet))
    {
      if found.None? { return; }
      var instances := found.value;
      var ready: set<string> := {};
      for i := 0 to |instances|
        invariant ready == Ready(instances[..i])
        invariant ring == old(ring) && consumerSet == old(consumerSet) && queue == old(queue)
      {
        ReadyOneMore(instances, i);
        if instances[i].1 { ready := ready + {instances[i].0}; }
      }
      assert instances[..|instances|] == instances;
      var added, removed := ready - ring, ring - ready;
      while added != {}
        invariant removed <= ring && ring + added == ready + removed
        invariant consumerSet == old(consumerSet) && queue == old(queue)
        decreases added
      {
        var m :| m in added;
        ring, added := ring + {m}, added - {m};
      }
      assert ring == ready + removed && ready !! removed;
      while removed != {}
        invariant ring == ready + removed && ready !! removed
        invariant consumerSet == old(consumerSet) && queue == old(queue)
        decreases removed
      {
        var m :| m in removed;
        ring, removed := ring - {m}, removed - {m};
      }
      assert ring == Ready(instances);
      forall i ensures i in ring <==> (i, true) in instances { ReadyIff(instances, i); }
      UpdateConsumerSet(listed);
    }

    /** processNextResync: a consumer leaves the queue only when its resync was sent. */
    method ProcessNextResync(consumer: string) returns (sent: bool)
      requires consumer in queue
      modifies this`queue
      ensures queue == if sent then old(queue) - {consumer} else old(queue)
    {
      queue := queue - {consumer};
      sent := *;  // sourceClient.Resync
      if !sent { queue := queue + {consumer}; }
    }
  }

  /** Replicas whose latest check saw the same instances and consumers own each consumer exactly
      once, as long as every ready instance is one of them. */
  lemma UniqueOwner(fleet: set<HashDispatcher>, ready: set<string>,
                    locate: (set<string>, string) -> string, consumer: string)
    requires forall d :: d in fleet ==> d.ring == ready && d.locate == locate
    requires forall d :: d in fleet ==> (consumer in d.consumerSet <==> locate(ready, consumer) == d.id)
    requires forall d, e :: d in fleet && e in fleet && d.id == e.id ==> d == e
    requires forall i :: i in ready ==> exists d :: d in fleet && d.id == i
    requires locate(ready, consumer) in ready
    ensures exists d :: d in fleet && d.Dispatch(consumer)
                        && forall e :: e in fleet && e.Dispatch(consumer) ==> e == d
  {
    var d :| d in fleet && d.id == locate(ready, consumer);
    assert d.Dispatch(consumer);
  }
}
