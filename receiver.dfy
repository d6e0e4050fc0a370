/**
 * The native broadcast receiver (SMSReceiver.java): for an SMS_RECEIVED
 * broadcast it decodes each PDU of the bundle and forwards the whitelisted
 * ones to the JavaScript side as `onSMSReceived` events.
 */
module Receiver {
  import opened Optional
  import opened Whitelist

  const SmsReceivedAction: string := "android.provider.Telephony.SMS_RECEIVED"

  /** One PDU of the bundle; `Undecodable` is a PDU whose decoding throws. */
  datatype Pdu =
    | Undecodable
    | Decoded(sender: Option<string>, body: Option<string>, timestamp: int)

  /** The broadcast's extras: the `pdus` array may be absent. */
  datatype Bundle = Bundle(pdus: Option<seq<Pdu>>)

  /** A broadcast intent: its action and extras may be null. */
  datatype Intent = Intent(action: Option<string>, extras: Option<Bundle>)

  /** The `onSMSReceived` event payload: sender, body (possibly null) and timestamp. */
  datatype SmsEvent = SmsEvent(sender: string, body: Option<string>, timestamp: int)

  /** The PDUs `onReceive` iterates over: none unless the action matches and the bundle and its array exist. */
  function PdusOf(intent: Intent): seq<Pdu> {
    if intent.action == Some(SmsReceivedAction) && intent.extras.Some?
       && intent.extras.value.pdus.Some?
    then intent.extras.value.pdus.value
    else []
  }

  /**
   * The event one PDU gives rise to, if it decodes, has a sender and
   * `accept` (the whitelist check) takes that sender.
   */
  function EventOf(p: Pdu, accept: string -> bool): Option<SmsEvent> {
    if p.Decoded? && p.sender.Some? && accept(p.sender.value)
    then Some(SmsEvent(p.sender.value, p.body, p.timestamp))
    else None
  }

  /** The events forwarded for a sequence of PDUs, in PDU order. */
  function Forwarded(pdus: seq<Pdu>, accept: string -> bool): (r: seq<SmsEvent>)
    ensures |r| <= |pdus|
    ensures forall k :: 0 <= k < |r| ==> accept(r[k].sender)
  {
    if pdus == [] then []
    else
      var front := Forwarded(pdus[..|pdus| - 1], accept);
      match EventOf(pdus[|pdus| - 1], accept)
      case None => front
      case Some(e) => front + [e]
  }

  /** What one broadcast emits; with no React context every send is dropped. */
  function Emitted(intent: Intent, hasReactContext: bool): seq<SmsEvent> {
    if hasReactContext then Forwarded(PdusOf(intent), NativeAccepts) else []
  }

  /**
   * `onReceive`: the PDU loop. A PDU that fails to decode is skipped
   * (the exception is caught inside the loop); the others are checked
   * against the whitelist and, when there is a React context, emitted.
   */
  method OnReceive(intent: Intent, hasReactContext: bool) returns (emitted: seq<SmsEvent>)
    ensures emitted == Emitted(intent, hasReactContext)
    ensures |emitted| <= |PdusOf(intent)|
    ensures forall k :: 0 <= k < |emitted| ==> NativeWhitelisted(Some(emitted[k].sender))
  {
    emitted := [];
    if intent.action == Some(SmsReceivedAction) && intent.extras.Some?
       && intent.extras.value.pdus.Some?
    {
      var pdus := intent.extras.value.pdus.value;
      var i := 0;
      while i < |pdus|
        invariant 0 <= i <= |pdus|
        invariant hasReactContext ==> emitted == Forwarded(pdus[..i], NativeAccepts)
        invariant !hasReactContext ==> emitted == []
      {
        ForwardedStep(pdus, i, NativeAccepts);
        match pdus[i] {
          case Undecodable =>
          case Decoded(sender, body, timestamp) =>
            var whitelisted := IsWhitelistedSenderNative(sender);
            if whitelisted && hasReactContext {
              assert EventOf(pdus[i], NativeAccepts) == Some(SmsEvent(sender.value, body, timestamp));
              emitted := emitted + [SmsEvent(sender.value, body, timestamp)];
            } else if hasReactContext {
              assert EventOf(pdus[i], NativeAccepts) == None;
            }
        }
        i := i + 1;
      }
      assert pdus[..|pdus|] == pdus;
    }
  }

  /** Forwarding one more PDU appends at most its own event. */
  lemma ForwardedStep(pdus: seq<Pdu>, i: nat, accept: string -> bool)
    requires i < |pdus|
    ensures Forwarded(pdus[..i + 1], accept) ==
      Forwarded(pdus[..i], accept) + (match EventOf(pdus[i], accept)
                                      case None => []
                                      case Some(e) => [e])
  {
    assert pdus[..i + 1][..i] == pdus[..i];
  }

  /** Processing two batches in turn forwards what processing them together does. */
  lemma {:induction false} ForwardedAppend(a: seq<Pdu>, b: seq<Pdu>, accept: string -> bool)
    ensures Forwarded(a + b, accept) == Forwarded(a, accept) + Forwarded(b, accept)
    decreases |b|
  {
    if b == [] {
      assert a + b == a;
    } else {
      var b' := b[..|b| - 1];
      assert (a + b)[..|a + b| - 1] == a + b';
      assert (a + b)[|a + b| - 1] == b[|b| - 1];
      ForwardedAppend(a, b', accept);
    }
  }

  /** Some PDU of the sequence yields the event. */
  predicate Yields(pdus: seq<Pdu>, e: SmsEvent, accept: string -> bool) {
    exists i :: 0 <= i < |pdus| && EventOf(pdus[i], accept) == Some(e)
  }

  lemma YieldsStep(pdus: seq<Pdu>, e: SmsEvent, accept: string -> bool)
    requires pdus != []
    ensures Yields(pdus, e, accept) <==>
      Yields(pdus[..|pdus| - 1], e, accept) || EventOf(pdus[|pdus| - 1], accept) == Some(e)
  {
    var front := pdus[..|pdus| - 1];
    if Yields(pdus, e, accept) {
      var i :| 0 <= i < |pdus| && EventOf(pdus[i], accept) == Some(e);
      if i < |front| {
        assert front[i] == pdus[i];
      }
    }
    if Yields(front, e, accept) {
      var i :| 0 <= i < |front| && EventOf(front[i], accept) == Some(e);
      assert front[i] == pdus[i];
    }
  }

  /** An event is forwarded exactly when some PDU decodes to it with an accepted sender. */
  lemma {:induction false} ForwardedExactly(pdus: seq<Pdu>, e: SmsEvent, accept: string -> bool)
    ensures e in Forwarded(pdus, accept) <==> Yields(pdus, e, accept)
  {
    if pdus != [] {
      ForwardedExactly(pdus[..|pdus| - 1], e, accept);
      YieldsStep(pdus, e, accept);
    }
  }

  /** Every event the receiver emits also passes the hook's own whitelist check. */
  lemma EmittedPassHook(intent: Intent, hasReactContext: bool)
    ensures forall k :: 0 <= k < |Emitted(intent, hasReactContext)| ==>
      IsWhitelistedSender(Emitted(intent, hasReactContext)[k].sender)
  {
    var r := Emitted(intent, hasReactContext);
    forall k | 0 <= k < |r| ensures IsWhitelistedSender(r[k].sender) {
      NativeAgreesWithHook(r[k].sender);
    }
  }

  /** A broadcast with any other action, or without a bundle or PDU array, emits nothing. */
  lemma IgnoredBroadcasts(intent: Intent, hasReactContext: bool)
    requires intent.action != Some(SmsReceivedAction) || intent.extras.None?
             || intent.extras.value.pdus.None?
    ensures Emitted(intent, hasReactContext) == []
  {
  }
}
