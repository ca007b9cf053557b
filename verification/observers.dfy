/**
 What a client observer receives. An observer is an opaque handle; a chat
 line arrives as a message and everything else as a notification. The
 human-readable notification text is replaced by the `Notice` it reports.
 */
module Observers {
  import opened SharedModels

  /** A subscribed client callback. */
  datatype ObserverRef = ObserverRef(handle: nat)

  /** The event a notification reports. */
  datatype Notice =
    | PlayerJoined(name: string)
    | PlayerLeft(name: string)
    | PlayerOnline(name: string)
    | PlayerOffline(name: string)
    | TaskUpdate(result: CompletionResult)
    | FinalRewardsClaimable
    | ChainCompletedBy(chainId: string)

  datatype Payload =
    | ChatMessage(text: string)
    | ChatNotification(notice: Notice)

  /** One call on one observer. */
  datatype Delivery = Delivery(to: ObserverRef, payload: Payload)

  /** The fan-out of one payload: one delivery to each subscriber. */
  function Broadcast(subscribers: set<ObserverRef>, payload: Payload): (r: set<Delivery>)
    ensures forall d :: d in r <==> d.to in subscribers && d.payload == payload
  {
    set o | o in subscribers :: Delivery(o, payload)
  }

  /** A broadcast makes exactly as many deliveries as there are subscribers. */
  lemma {:induction false} BroadcastCount(subscribers: set<ObserverRef>, payload: Payload)
    ensures |Broadcast(subscribers, payload)| == |subscribers|
    decreases subscribers
  {
    if subscribers != {} {
      var o :| o in subscribers;
      BroadcastCount(subscribers - {o}, payload);
      assert Broadcast(subscribers, payload) == Broadcast(subscribers - {o}, payload) + {Delivery(o, payload)};
    }
  }
}
