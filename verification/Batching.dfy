/** Cutting a list into batches: batchStatusEventIDs (pkg/controllers/status_controller.go) and
    resyncConsumer (pkg/client/cloudevents/source_client.go). */
module Batching {
  import opened Division

  const STATUS_HASH_BATCH_SIZE := 1000
  const PURGE_BATCH_SIZE := 500

  function Flatten<T>(batches: seq<seq<T>>): seq<T>
  {
    if batches == [] then [] else Flatten(batches[..|batches| - 1]) + batches[|batches| - 1]
  }

  /** The batches are consecutive pieces of the list, all full but perhaps the last. */
  ghost predicate Cut<T>(list: seq<T>, size: nat, batches: seq<seq<T>>)
    requires size > 0
  {
    && Flatten(batches) == list
    && (forall i :: 0 <= i < |batches| ==> 0 < |batches[i]| <= size)
    && (forall i :: 0 <= i < |batches| - 1 ==> |batches[i]| == size)
    && |batches| == Count(|list|, size)
  }

  function Count(n: nat, size: nat): nat
    requires size > 0
  {
    (n + size - 1) / size
  }

  /** The length of some full batches. */
  function Full(k: nat, size: nat): nat
  {
    if k == 0 then 0 else Full(k - 1, size) + size
  }

  lemma {:induction false} FullIsProduct(k: nat, size: nat)
    ensures Full(k, size) == k * size
  {
    if k > 0 { FullIsProduct(k - 1, size); }
  }

  lemma CountFull(k: nat, size: nat)
    requires size > 0
    ensures Full(k, size) / size == k
  {
    FullIsProduct(k, size);
    QuotientIsUnique(k * size, size, k, 0);
  }

  /** A list longer than some full batches has more of them, one more if it ends in the next. */
  lemma CountOneMore(k: nat, size: nat, n: nat)
    requires size > 0 && Full(k, size) < n
    ensures Count(n, size) >= k + 1
    ensures n <= Full(k, size) + size ==> Count(n, size) == k + 1
  {
    FullIsProduct(k, size);
    var m := n + size - 1;
    assert (k + 1) * size == k * size + size <= m;
    NoExcess(m, m, size, k + 1, m / size);
    if n <= Full(k, size) + size { QuotientIsUnique(m, size, k + 1, n - k * size - 1); }
  }

  /** The announced number of batches of a list of hashes, where an empty list still makes one. */
  function Announced(n: nat, size: nat): nat
    requires size > 0
  {
    if n == 0 then 1 else Count(n, size)
  }

  method Batches<T>(list: seq<T>, size: nat) returns (batches: seq<seq<T>>)
    requires size > 0
    ensures Cut(list, size, batches)
  {
    batches := [];
    var i := 0;
    if list == [] { QuotientIsUnique(size - 1, size, 0, size - 1); }
    while i < |list|
      invariant 0 <= i == Full(|batches|, size)
      invariant i >= |list| ==> |batches| == Count(|list|, size)
      invariant Flatten(batches) == list[..if i < |list| then i else |list|]
      invariant forall j :: 0 <= j < |batches| ==> 0 < |batches[j]| <= size
      invariant forall j :: 0 <= j < |batches| && (j < |batches| - 1 || i <= |list|) ==> |batches[j]| == size
    {
      CountOneMore(|batches|, size, |list|);
      var end := i + size;
      if end > |list| { end := |list|; }
      Extend(list, batches, i, end);
      batches := batches + [list[i..end]];
      i := i + size;
    }
    assert list[..|list|] == list;
  }

  lemma Extend<T>(list: seq<T>, batches: seq<seq<T>>, i: nat, end: nat)
    requires i <= end <= |list| && Flatten(batches) == list[..i]
    ensures Flatten(batches + [list[i..end]]) == list[..end]
  {
    var more := batches + [list[i..end]];
    assert more[..|more| - 1] == batches;
    assert list[..end] == list[..i] + list[i..end];
  }

  datatype Message<T> = Message(hashes: seq<T>, number: nat, total: nat)

  /** What is sent are the numbered batches, up to the first that fails; an empty list still makes
      one empty message. Whether the message at an index can be sent is up to the broker. */
  method SendBatches<T>(hashes: seq<T>, size: nat, sends: nat -> bool) returns (ok: bool, sent: seq<Message<T>>)
    requires size > 0
    ensures |sent| <= Announced(|hashes|, size)
    ensures forall i :: 0 <= i < |sent| ==>
              sent[i].number == i + 1 && sent[i].total == Announced(|hashes|, size)
    ensures Bodies(sent) <= hashes && (forall i :: 0 <= i < |sent| ==> |sent[i].hashes| <= size)
    ensures ok ==> |sent| == Announced(|hashes|, size) && Bodies(sent) == hashes
    ensures forall i :: 0 <= i < |sent| ==> sends(i)
    ensures !ok ==> |sent| < Announced(|hashes|, size) && !sends(|sent|)
  {
    sent := [];
    if |hashes| == 0 {
      ok := sends(0);
      if ok { sent := [Message(hashes, 1, 1)]; assert Bodies(sent[..0]) == []; }
      return;
    }
    var total := Count(|hashes|, size);
    var i := 0;
    while i < |hashes|
      invariant 0 <= i == Full(|sent|, size) && |sent| <= total
      invariant i >= |hashes| ==> |sent| == total
      invariant Bodies(sent) == hashes[..if i < |hashes| then i else |hashes|]
      invariant forall j :: 0 <= j < |sent| ==>
                  sent[j].number == j + 1 && sent[j].total == total && |sent[j].hashes| <= size
      invariant forall j :: 0 <= j < |sent| ==> sends(j)
    {
      var end := i + size;
      if end > |hashes| { end := |hashes|; }
      CountFull(|sent|, size);
      CountOneMore(|sent|, size, |hashes|);
      ok := sends(|sent|);
      if !ok { return; }
      var message := Message(hashes[i..end], i / size + 1, total);
      SendOne(hashes, sent, i, end, message);
      sent := sent + [message];
      i := i + size;
    }
    ok := true;
    assert hashes[..|hashes|] == hashes;
  }

  /** resyncConsumer. */
  method Resync<T>(hashes: seq<T>, sends: nat -> bool) returns (ok: bool, sent: seq<Message<T>>)
    ensures forall i :: 0 <= i < |sent| ==>
              && sent[i].number == i + 1 && |sent[i].hashes| <= 1000
              && sent[i].total == if hashes == [] then 1 else (|hashes| + 999) / 1000
    ensures Bodies(sent) <= hashes
    ensures ok ==>
              && |sent| == (if hashes == [] then 1 else (|hashes| + 999) / 1000)
              && Bodies(sent) == hashes
    ensures (forall i :: 0 <= i < |sent| ==> sends(i)) && (!ok ==> !sends(|sent|))
  {
    ok, sent := SendBatches(hashes, STATUS_HASH_BATCH_SIZE, sends);
  }

  lemma SendOne<T>(hashes: seq<T>, sent: seq<Message<T>>, i: nat, end: nat, message: Message<T>)
    requires i <= end <= |hashes| && Bodies(sent) == hashes[..i] && message.hashes == hashes[i..end]
    ensures Bodies(sent + [message]) == hashes[..end]
  {
    var more := sent + [message];
    assert more[..|more| - 1] == sent;
    assert hashes[..end] == hashes[..i] + hashes[i..end];
  }

  function Bodies<T>(sent: seq<Message<T>>): seq<T>
  {
    if sent == [] then [] else Bodies(sent[..|sent| - 1]) + sent[|sent| - 1].hashes
  }
}
