/**
 * `ChannelMessageHandler`: an Android `Handler` that maps each incoming message
 * and offers the non-null results to a channel it holds only weakly. The channel
 * is the conflated one the binding creates: one slot, a new value overwrites an
 * unread one, and offering to a closed channel is swallowed (`offerCatching`).
 */
module ChannelMessageHandling {
  import opened Wrappers
  import opened Messages

  /** A conflated channel, with the history of the values it accepted. */
  class ConflatedChannel<T> {
    var slot: Option<T>
    var isClosed: bool
    ghost var accepted: seq<T>

    constructor ()
      ensures slot == None && !isClosed && accepted == []
    {
      slot := None;
      isClosed := false;
      accepted := [];
    }

    /** Offers `element`; on a closed channel the failure is caught and reported as `false`. */
    method OfferCatching(element: T) returns (offered: bool)
      modifies this
      ensures offered == !old(isClosed)
      ensures isClosed == old(isClosed)
      ensures slot == if offered then Some(element) else old(slot)
      ensures accepted == if offered then old(accepted) + [element] else old(accepted)
    {
      offered := !isClosed;
      if offered {
        slot := Some(element);
        accepted := accepted + [element];
      }
    }

    /** Takes the buffered value, if there is one. */
    method TryReceive() returns (value: Option<T>)
      modifies this
      ensures value == old(slot) && slot == None
      ensures isClosed == old(isClosed) && accepted == old(accepted)
    {
      value := slot;
      slot := None;
    }

    /** What `consumeEach` does to the channel when consumption stops: it is cancelled. */
    method Cancel()
      modifies this
      ensures isClosed && slot == None && accepted == old(accepted)
    {
      isClosed := true;
      slot := None;
    }
  }

  class ChannelMessageHandler<T> {
    /** The referent of the weak reference; `null` once the channel was collected. */
    var weakChannelReference: ConflatedChannel?<T>
    const mapMessage: Message -> Option<T>
    /** The messages `mapMessage` has been applied to, in order. */
    ghost var mapped: seq<Message>

    constructor (channel: ConflatedChannel<T>, mapMessage: Message -> Option<T>)
      ensures weakChannelReference == channel && this.mapMessage == mapMessage && mapped == []
    {
      weakChannelReference := channel;
      this.mapMessage := mapMessage;
      mapped := [];
    }

    /** The garbage collector clearing the weak reference (not an operation of the handler). */
    method Collect()
      modifies this
      ensures weakChannelReference == null && mapped == old(mapped)
    {
      weakChannelReference := null;
    }

    method HandleMessage(msg: Message)
      modifies this, weakChannelReference
      ensures weakChannelReference == old(weakChannelReference)
      // A collected channel: nothing happens, not even a call to `mapMessage`.
      ensures old(weakChannelReference) == null ==> mapped == old(mapped)
      ensures var channel := old(weakChannelReference);
        channel != null ==>
          mapped == old(mapped) + [msg] &&
          channel.isClosed == old(channel.isClosed) &&
          // A null mapping never reaches the channel.
          (mapMessage(msg).None? ==> channel.slot == old(channel.slot) && channel.accepted == old(channel.accepted)) &&
          // A non-null mapping is offered exactly once; a closed channel ignores it.
          (mapMessage(msg).Some? ==>
            channel.accepted == old(channel.accepted) + (if old(channel.isClosed) then [] else [mapMessage(msg).value]) &&
            channel.slot == if old(channel.isClosed) then old(channel.slot) else Some(mapMessage(msg).value))
    {
      var channel := weakChannelReference;
      if channel != null {
        var mappedValue := mapMessage(msg);
        mapped := mapped + [msg];
        if mappedValue.Some? {
          var _ := channel.OfferCatching(mappedValue.value);
        }
      }
    }
  }

  /** The values a live, open channel is offered for a sequence of messages. */
  function ForwardedValues<T>(mapMessage: Message -> Option<T>, msgs: seq<Message>): (r: seq<T>)
    // At most one value per message, and none when every message maps to null.
    ensures |r| <= |msgs|
    ensures (forall m :: m in msgs ==> mapMessage(m).None?) ==> r == []
  {
    if msgs == [] then []
    else
      var last := msgs[|msgs| - 1];
      ForwardedValues(mapMessage, msgs[..|msgs| - 1]) + (if mapMessage(last).Some? then [mapMessage(last).value] else [])
  }

  /** A value is forwarded exactly when some message maps to it. */
  lemma {:induction false} ForwardedValuesAreMappedMessages<T>(mapMessage: Message -> Option<T>, msgs: seq<Message>)
    ensures forall x :: x in ForwardedValues(mapMessage, msgs) <==> exists m :: m in msgs && mapMessage(m) == Some(x)
    decreases |msgs|
  {
    if msgs != [] {
      var init, last := msgs[..|msgs| - 1], msgs[|msgs| - 1];
      ForwardedValuesAreMappedMessages(mapMessage, init);
      assert msgs == init + [last];
      forall x
        ensures x in ForwardedValues(mapMessage, msgs) <==> exists m :: m in msgs && mapMessage(m) == Some(x)
      {
        if x in ForwardedValues(mapMessage, msgs) && x !in ForwardedValues(mapMessage, init) {
          assert mapMessage(last) == Some(x);
        }
        if exists m :: m in msgs && mapMessage(m) == Some(x) {
          var m :| m in msgs && mapMessage(m) == Some(x);
          if m != last {
            assert m in init;
          }
        }
      }
    }
  }
}
