/** One owned downstream connection per route: mecomserver/server.go, runBroker and exchange.

    The device answers every request it receives once, in order, on the connection it came
    from.  Everything else that can happen to a request is arbitrary: it may be cancelled
    before it is served, the dial may fail, the write may fail with or without the frame
    having reached the device, the answer may time out, and the watchdog may close the
    connection just after a successful read.
  */
module Broker {
  import opened Wrappers

  type Frame = string

  /** A request as the device received it; `tag` is its position among the dequeued requests. */
  datatype Delivery = Delivery(tag: nat, frame: Frame)

  /** The answer to one delivered request. */
  datatype Answer = Answer(to: Delivery)

  datatype Failure = Cancelled | DialFailed | WriteFailed | ReadFailed

  type Reply = Result<Answer, Failure>

  /** The open connection: what the device received before it was opened, how many of its answers were
      read, and whether the watchdog or the peer has closed it behind the broker's back. */
  datatype Link = Link(since: nat, read: nat, dead: bool)

  /** What the surroundings do to one request. */
  datatype Fate = Fate(lost: bool, cancelled: bool, dials: bool, written: bool, reached: bool, answered: bool,
                       lateClose: bool)

  class Broker {
    /** Everything the device has received, over all connections. */
    var wire: seq<Delivery>
    var link: Option<Link>
    var dequeued: nat
    var replies: seq<Reply>

    /** The answers the device has sent on the open connection and the broker has not read. */
    function Unread(): seq<Delivery>
      reads this
      requires link.Some? ==> link.value.since + link.value.read <= |wire|
    {
      if link.None? then [] else wire[link.value.since + link.value.read..]
    }

    ghost predicate Valid()
      reads this
    {
      && |replies| == dequeued
      && (link.Some? ==> link.value.since + link.value.read <= |wire|)
      && Unread() == []
      && (forall i :: 0 <= i < |wire| ==> wire[i].tag < dequeued)
      && (forall i, j :: 0 <= i < j < |wire| ==> wire[i].tag < wire[j].tag)
    }

    /** Every success is the answer to the very request, which the device received. */
    ghost predicate Matched(requests: seq<Frame>)
      reads this
    {
      && dequeued == |replies| <= |requests|
      && (forall k :: 0 <= k < |replies| && replies[k].Ok? ==>
            replies[k].value == Answer(Delivery(k, requests[k])) && replies[k].value.to in wire)
      && (forall i :: 0 <= i < |wire| ==> wire[i].tag < dequeued && wire[i].frame == requests[wire[i].tag])
    }

    constructor ()
      ensures Valid() && wire == [] && link == None && replies == [] && dequeued == 0
    {
      wire, link, dequeued, replies := [], None, 0, [];
    }

    /** Write the request, read one answer; on failure the connection is left as it is. */
    method Exchange(frame: Frame, fate: Fate) returns (reply: Reply)
      requires Valid() && link.Some?
      modifies this`wire, this`link
      ensures link.Some? && link.value.since == old(link.value.since)
      ensures link.value.since + link.value.read <= |wire|
      ensures wire == old(wire) || wire == old(wire) + [Delivery(dequeued, frame)]
      ensures reply.Ok? ==>
                && wire == old(wire) + [Delivery(dequeued, frame)] && Unread() == []
                && reply.value == Answer(Delivery(dequeued, frame))
      ensures reply.Ok? <==> !old(link.value.dead) && fate.written && fate.answered
    {
      if link.value.dead {
        return Err(WriteFailed);
      }
      if !fate.written {
        if fate.reached {
          wire := wire + [Delivery(dequeued, frame)];
        }
        return Err(WriteFailed);
      }
      wire := wire + [Delivery(dequeued, frame)];
      if !fate.answered {
        return Err(ReadFailed);
      }
      var answered := wire[link.value.since + link.value.read];
      link := Some(link.value.(read := link.value.read + 1, dead := fate.lateClose));
      return Ok(Answer(answered));
    }

    /** One round of the loop: exactly one reply for the dequeued request. */
    method Handle(frame: Frame, fate: Fate)
      requires Valid()
      modifies this
      ensures Valid() && dequeued == old(dequeued) + 1
      ensures |replies| == |old(replies)| + 1 && replies[..|replies| - 1] == old(replies)
      ensures var request := Delivery(old(dequeued), frame);
              && (wire == old(wire) || wire == old(wire) + [request])
              && (var reply := replies[|replies| - 1];
                  reply.Ok? ==> reply.value == Answer(request) && wire == old(wire) + [request])
      ensures replies[|replies| - 1].Ok? <==>
                && !fate.cancelled && fate.written && fate.answered
                && match old(link) { case None => fate.dials case Some(open) => !open.dead && !fate.lost }
      ensures replies[|replies| - 1].Ok? ==> link.Some?
      ensures fate.cancelled ==>
                && replies[|replies| - 1] == Err(Cancelled) && wire == old(wire)
                && (link.Some? <==> old(link).Some?)
                && (link.Some? ==> link.value == old(link).value.(dead := old(link).value.dead || fate.lost))
      ensures replies[|replies| - 1].Err? && !fate.cancelled ==> link == None
      ensures replies[|replies| - 1].Ok? ==>
                link.value.since == if old(link).Some? then old(link).value.since else |old(wire)|
    {
      if fate.lost && link.Some? {
        link := Some(link.value.(dead := true));
      }
      var reply;
      if fate.cancelled {
        reply := Err(Cancelled);
      } else if link.None? && !fate.dials {
        reply := Err(DialFailed);
      } else {
        if link.None? {
          link := Some(Link(|wire|, 0, false));
        }
        reply := Exchange(frame, fate);
        if reply.Err? {
          link := None;
        }
      }
      replies := replies + [reply];
      dequeued := dequeued + 1;
    }

    /** Any sequence of requests, under any fates: no cross-talk, one reply each, no request delivered twice. */
    method Run(requests: seq<Frame>, fates: seq<Fate>)
      requires |fates| == |requests|
      requires Valid() && wire == [] && link == None && replies == []
      modifies this
      ensures Valid() && Matched(requests) && |replies| == |requests|
      ensures forall i, j :: 0 <= i < j < |wire| ==> wire[i].tag < wire[j].tag
    {
      for k := 0 to |requests|
        invariant Valid() && Matched(requests) && |replies| == k
      {
        ghost var before := replies;
        Handle(requests[k], fates[k]);
        forall j | 0 <= j < |replies| && replies[j].Ok?
          ensures replies[j].value == Answer(Delivery(j, requests[j])) && replies[j].value.to in wire
        {
          if j < k { assert replies[j] == before[j]; }
        }
      }
    }
  }
}
