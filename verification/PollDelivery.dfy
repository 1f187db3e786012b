/**
  Poll delivery (section 2.4 of RFC 8936): fetch a batch, hand over each SET,
  acknowledge those that were processed. The transmitter keeps what is not acknowledged.
 */
module PollDelivery {
  import opened Models

  datatype Handling = Processed | NotProcessed | HandlerRaises

  type Handler = string -> Handling     // by the `jti` under which a SET was delivered

  datatype Poll = Poll(acked: seq<string>, raised: bool)

  /** The loop over the batch, up to the first SET whose handler raises. */
  function PollBatch(batch: seq<string>, handler: Handler): Poll {
    if batch == [] then Poll([], false)
    else
      var p, jti := PollBatch(batch[..|batch| - 1], handler), batch[|batch| - 1];
      if p.raised then p
      else match handler(jti)
        case Processed => Poll(p.acked + [jti], false)
        case NotProcessed => p
        case HandlerRaises => Poll(p.acked, true)
  }

  /** The acknowledgement that is sent: none after an exception, none if there is nothing to say. */
  function Sent(p: Poll): set<string> {
    if p.raised then {} else set jti | jti in p.acked
  }

  /** Exactly the processed SETs of a batch are acknowledged, and none if a handler raises. */
  lemma {:induction false} SentIffProcessed(batch: seq<string>, handler: Handler)
    ensures var p := PollBatch(batch, handler);
            && (p.raised <==> exists jti :: jti in batch && handler(jti) == HandlerRaises)
            && (!p.raised ==> forall jti :: jti in p.acked <==> jti in batch && handler(jti) == Processed)
            && (!p.raised ==> forall jti ::
                  multiset(p.acked)[jti] == if handler(jti) == Processed then multiset(batch)[jti] else 0)
  {
    if batch != [] {
      var front, jti := batch[..|batch| - 1], batch[|batch| - 1];
      assert batch == front + [jti];
      SentIffProcessed(front, handler);
      assert jti in batch && forall x :: x in front ==> x in batch;
    }
  }

  // ----- The transmitter's side -----

  datatype Event =
    | Arrives(jti: string)
    | Polls(batch: seq<string>, handler: Handler, ackArrives: bool)

  function Pending(events: seq<Event>): set<string> {
    if events == [] then {}
    else
      var pending := Pending(events[..|events| - 1]);
      match events[|events| - 1]
      case Arrives(jti) => pending + {jti}
      case Polls(batch, handler, ackArrives) =>
        if ackArrives then pending - Sent(PollBatch(batch, handler)) else pending
  }

  /** A poll, none of whose handlers raised, whose handler returned true for `jti`. */
  ghost predicate ProcessedBy(e: Event, jti: string) {
    && e.Polls? && jti in e.batch && e.handler(jti) == Processed
    && forall x :: x in e.batch ==> e.handler(x) != HandlerRaises
  }

  /** A poll takes a SET off the pending ones iff it processed it and its acknowledgement arrived. */
  lemma PollRemovesIff(events: seq<Event>, poll: Event, jti: string)
    requires poll.Polls?
    ensures jti in Pending(events + [poll]) <==>
            jti in Pending(events) && !(poll.ackArrives && ProcessedBy(poll, jti))
  {
    assert (events + [poll])[..|events|] == events;
    SentIffProcessed(poll.batch, poll.handler);
  }

  /**
    Over any run with lost acknowledgements and raising handlers: a SET that
    arrived is still pending, or some poll processed it after it last arrived.
   */
  lemma {:induction false} NothingIsLost(events: seq<Event>, a: nat)
    requires a < |events| && events[a].Arrives?
    ensures var jti := events[a].jti;
            || jti in Pending(events)
            || exists i :: a < i < |events| && ProcessedBy(events[i], jti) && events[i].ackArrives
    decreases |events|
  {
    var front, e, jti := events[..|events| - 1], events[|events| - 1], events[a].jti;
    if a < |front| {
      NothingIsLost(front, a);
      if jti in Pending(front) {
        if e.Polls? {
          assert events == front + [e];
          PollRemovesIff(front, e, jti);
        }
        assert jti !in Pending(events) ==> ProcessedBy(events[|front|], jti);
      } else {
        var i :| a < i < |front| && ProcessedBy(front[i], jti) && front[i].ackArrives;
        assert events[i] == front[i];
      }
    }
  }

  class PollDeliveryClient {
    /** `poll_once` between the two requests: the batch that was fetched, and the acknowledgement that is sent. */
    method PollOnce(batch: seq<string>, handler: Handler) returns (sent: seq<string>, raised: bool)
      ensures raised == PollBatch(batch, handler).raised
      ensures raised <==> exists jti :: jti in batch && handler(jti) == HandlerRaises
      ensures sent == if raised then [] else PollBatch(batch, handler).acked
      ensures forall jti :: jti in sent <==> jti in batch && !raised && handler(jti) == Processed
      ensures forall jti ::
                multiset(sent)[jti] == if !raised && handler(jti) == Processed then multiset(batch)[jti] else 0
      ensures forall jti :: jti in sent <==> jti in Sent(PollBatch(batch, handler))
    {
      SentIffProcessed(batch, handler);
      var acked: seq<string> := [];
      for i := 0 to |batch|
        invariant PollBatch(batch[..i], handler) == Poll(acked, false)
      {
        assert batch[..i + 1][..i] == batch[..i];
        match handler(batch[i]) {
          case Processed => acked := acked + [batch[i]];
          case NotProcessed =>
          case HandlerRaises =>
            RaiseSticks(batch, handler, i + 1);
            return [], true;
        }
      }
      assert batch[..|batch|] == batch;
      return acked, false;
    }
  }

  lemma {:induction false} RaiseSticks(batch: seq<string>, handler: Handler, n: nat)
    requires n <= |batch| && PollBatch(batch[..n], handler).raised
    ensures PollBatch(batch, handler) == PollBatch(batch[..n], handler)
  {
    if n == |batch| {
      assert batch[..n] == batch;
    } else {
      var front := batch[..|batch| - 1];
      assert front[..n] == batch[..n];
      RaiseSticks(front, handler, n);
    }
  }
}
