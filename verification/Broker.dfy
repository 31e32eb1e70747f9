/** The at-least-once notification broker (bulk/memory.py). */
module Broker {
  import opened Prelude
  import opened Repository

  datatype Delivery = Delivery(id: Id, notification: Notification)

  /** Queued notifications and unacknowledged deliveries, both oldest first. */
  datatype Channel = Channel(queued: seq<Notification>, inflight: seq<Delivery>)

  datatype BrokerError = BadDeliveryIdentifier

  function NotificationsOf(deliveries: seq<Delivery>): (r: seq<Notification>)
    ensures |r| == |deliveries| && forall i :: 0 <= i < |r| ==> r[i] == deliveries[i].notification
  {
    Map((d: Delivery) => d.notification, deliveries)
  }

  predicate Outstanding(deliveries: seq<Delivery>, id: Id) {
    exists i :: 0 <= i < |deliveries| && deliveries[i].id == id
  }

  function Publish(c: Channel, n: Notification): Channel {
    c.(queued := c.queued + [n])
  }

  /** The notification leaves the queue before its delivery identifier is checked. */
  function Receive(c: Channel, id: Id): (Channel, Result<Option<Delivery>, BrokerError>) {
    if c.queued == [] then (c, Ok(None))
    else
      var popped := c.(queued := c.queued[1..]);
      if Blank(id) || Outstanding(c.inflight, id) then (popped, Err(BadDeliveryIdentifier))
      else
        var delivery := Delivery(id, c.queued[0]);
        (popped.(inflight := c.inflight + [delivery]), Ok(Some(delivery)))
  }

  /** Where the delivery is, if it is outstanding. */
  function Position(deliveries: seq<Delivery>, id: Id): (r: Option<nat>)
    ensures r.Some? <==> Outstanding(deliveries, id)
    ensures r.Some? ==> r.value < |deliveries| && deliveries[r.value].id == id
  {
    if deliveries == [] then None
    else if deliveries[|deliveries| - 1].id == id then Some(|deliveries| - 1)
    else Position(deliveries[..|deliveries| - 1], id)
  }

  function Acknowledge(c: Channel, id: Id): (Channel, bool) {
    match Position(c.inflight, id)
    case None => (c, false)
    case Some(i) => (c.(inflight := Without(c.inflight, i)), true)
  }

  /** Everything unacknowledged goes back to the front of the queue. */
  function Redeliver(c: Channel): (Channel, nat) {
    (Channel(NotificationsOf(c.inflight) + c.queued, []), |c.inflight|)
  }

  /** Every notification the broker still holds. */
  function Held(c: Channel): multiset<Notification> {
    multiset(c.queued) + multiset(NotificationsOf(c.inflight))
  }

  predicate DistinctIds(deliveries: seq<Delivery>) {
    forall i, j :: 0 <= i < j < |deliveries| ==> deliveries[i].id != deliveries[j].id
  }

  lemma PublishAdds(c: Channel, n: Notification)
    ensures Held(Publish(c, n)) == Held(c) + multiset{n}
  {}

  /** Receiving loses the notification at the head of the queue exactly when the delivery identifier is refused. */
  lemma ReceiveConservesIff(c: Channel, id: Id)
    ensures Held(Receive(c, id).0) == Held(c) <==> c.queued == [] || (!Blank(id) && !Outstanding(c.inflight, id))
    ensures c.queued != [] && (Blank(id) || Outstanding(c.inflight, id)) ==>
      Held(c) == Held(Receive(c, id).0) + multiset{c.queued[0]}
  {
    if c.queued != [] {
      var n := c.queued[0];
      assert c.queued == [n] + c.queued[1..];
      assert NotificationsOf(c.inflight + [Delivery(id, n)]) == NotificationsOf(c.inflight) + [n];
      assert multiset(c.queued) == multiset{n} + multiset(c.queued[1..]);
      assert Held(c)[n] == multiset(c.queued[1..])[n] + 1 + multiset(NotificationsOf(c.inflight))[n];
    }
  }

  lemma NotificationsWithout(deliveries: seq<Delivery>, i: nat)
    requires i < |deliveries|
    ensures multiset(NotificationsOf(deliveries))
         == multiset(NotificationsOf(Without(deliveries, i))) + multiset{deliveries[i].notification}
  {
    var all := NotificationsOf(deliveries);
    assert NotificationsOf(Without(deliveries, i)) == Without(all, i);
    assert multiset(all) == multiset{all[i]} + multiset(Without(all, i));
  }

  /** An acknowledgement takes out the one notification delivered under that identifier, and nothing else ever does. */
  lemma AcknowledgeRemovesOne(c: Channel, id: Id, n: Notification)
    requires DistinctIds(c.inflight)
    ensures Delivery(id, n) in c.inflight ==>
      Acknowledge(c, id).1 && Held(c) == Held(Acknowledge(c, id).0) + multiset{n}
    ensures !Outstanding(c.inflight, id) ==> Acknowledge(c, id) == (c, false)
    ensures DistinctIds(Acknowledge(c, id).0.inflight) && !Outstanding(Acknowledge(c, id).0.inflight, id)
  {
    match Position(c.inflight, id)
    case None =>
      assert Delivery(id, n) in c.inflight ==> Outstanding(c.inflight, id);
    case Some(i) =>
      NotificationsWithout(c.inflight, i);
  }

  lemma RedeliverConserves(c: Channel)
    ensures Held(Redeliver(c).0) == Held(c) && Redeliver(c).0.inflight == []
    ensures |Redeliver(c).0.queued| == |c.queued| + Redeliver(c).1
  {}

  /** Redelivery undoes every receipt since the last one: the queue is as if none had happened. */
  lemma RedeliverUndoesReceive(c: Channel, id: Id)
    requires Receive(c, id).1.Ok?
    ensures Redeliver(Receive(c, id).0).0 == Redeliver(c).0
  {
    if c.queued != [] {
      var n, after := c.queued[0], Receive(c, id).0;
      assert NotificationsOf(after.inflight) == NotificationsOf(c.inflight) + [n];
      assert c.queued == [n] + after.queued;
      assert (NotificationsOf(c.inflight) + [n]) + after.queued == NotificationsOf(c.inflight) + ([n] + after.queued);
    }
  }

  // ----- Runs -----

  datatype BrokerAct = PublishAct(n: Notification) | ReceiveAct(id: Id) | AcknowledgeAct(id: Id) | RedeliverAct

  function PerformAct(c: Channel, act: BrokerAct): Channel {
    match act
    case PublishAct(n) => Publish(c, n)
    case ReceiveAct(id) => Receive(c, id).0
    case AcknowledgeAct(id) => Acknowledge(c, id).0
    case RedeliverAct => Redeliver(c).0
  }

  function PerformAll(acts: seq<BrokerAct>): Channel {
    if acts == [] then Channel([], []) else PerformAct(PerformAll(acts[..|acts| - 1]), acts[|acts| - 1])
  }

  /** What one call brings in, takes out by acknowledgement, or loses by a refused identifier. */
  function Brought(act: BrokerAct): multiset<Notification> {
    if act.PublishAct? then multiset{act.n} else multiset{}
  }

  function Confirmed(c: Channel, act: BrokerAct): multiset<Notification> {
    if act.AcknowledgeAct? && Position(c.inflight, act.id).Some?
    then multiset{c.inflight[Position(c.inflight, act.id).value].notification} else multiset{}
  }

  function Dropped(c: Channel, act: BrokerAct): multiset<Notification> {
    if act.ReceiveAct? && Receive(c, act.id).1.Err? then multiset{c.queued[0]} else multiset{}
  }

  function AllBrought(acts: seq<BrokerAct>): multiset<Notification> {
    if acts == [] then multiset{} else AllBrought(acts[..|acts| - 1]) + Brought(acts[|acts| - 1])
  }

  function AllConfirmed(acts: seq<BrokerAct>): multiset<Notification> {
    if acts == [] then multiset{}
    else AllConfirmed(acts[..|acts| - 1]) + Confirmed(PerformAll(acts[..|acts| - 1]), acts[|acts| - 1])
  }

  function AllDropped(acts: seq<BrokerAct>): multiset<Notification> {
    if acts == [] then multiset{}
    else AllDropped(acts[..|acts| - 1]) + Dropped(PerformAll(acts[..|acts| - 1]), acts[|acts| - 1])
  }

  lemma AcknowledgeBalances(c: Channel, id: Id)
    requires DistinctIds(c.inflight)
    ensures Held(c) == Held(Acknowledge(c, id).0) + Confirmed(c, AcknowledgeAct(id)) && DistinctIds(Acknowledge(c, id).0.inflight)
  {
    var position := Position(c.inflight, id);
    if position.Some? {
      var d := c.inflight[position.value];
      assert d == Delivery(id, d.notification);
      AcknowledgeRemovesOne(c, id, d.notification);
    }
  }

  lemma ReceiveBalances(c: Channel, id: Id)
    requires DistinctIds(c.inflight)
    ensures Held(c) == Held(Receive(c, id).0) + Dropped(c, ReceiveAct(id)) && DistinctIds(Receive(c, id).0.inflight)
  {
    ReceiveConservesIff(c, id);
  }

  lemma ActBalances(c: Channel, act: BrokerAct)
    requires DistinctIds(c.inflight)
    ensures Held(c) + Brought(act) == Held(PerformAct(c, act)) + Confirmed(c, act) + Dropped(c, act)
    ensures DistinctIds(PerformAct(c, act).inflight)
  {
    match act
    case PublishAct(n) => PublishAdds(c, n);
    case ReceiveAct(id) => ReceiveBalances(c, id);
    case RedeliverAct => RedeliverConserves(c);
    case AcknowledgeAct(id) => AcknowledgeBalances(c, id);
  }

  lemma BalanceGoesOn(brought: multiset<Notification>, held: multiset<Notification>, taken: multiset<Notification>,
                      dropped: multiset<Notification>, b: multiset<Notification>, after: multiset<Notification>,
                      t: multiset<Notification>, d: multiset<Notification>)
    requires brought == held + taken + dropped && held + b == after + t + d
    ensures brought + b == after + (taken + t) + (dropped + d)
  {
    forall x ensures (brought + b)[x] == (after + (taken + t) + (dropped + d))[x] {
      assert brought[x] == (held + taken + dropped)[x] && (held + b)[x] == (after + t + d)[x];
    }
  }

  /** Over every run: what was published is what the broker holds, what was acknowledged, and what refused identifiers lost. */
  lemma {:induction false} RunBalances(acts: seq<BrokerAct>)
    ensures AllBrought(acts) == Held(PerformAll(acts)) + AllConfirmed(acts) + AllDropped(acts)
    ensures DistinctIds(PerformAll(acts).inflight)
  {
    if acts != [] {
      var past, act := acts[..|acts| - 1], acts[|acts| - 1];
      var c := PerformAll(past);
      RunBalances(past);
      ActBalances(c, act);
      BalanceGoesOn(AllBrought(past), Held(c), AllConfirmed(past), AllDropped(past),
                    Brought(act), Held(PerformAct(c, act)), Confirmed(c, act), Dropped(c, act));
    }
  }
}
