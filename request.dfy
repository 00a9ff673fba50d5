/**
 * The request client's dispatcher: a pool of sender links served round-robin,
 * each paired with a dynamic reply receiver, a backlog of pending request
 * messages ending in an end-of-input sentinel, and the two counters whose
 * equality, once the sentinel has been seen, ends the exchange.
 */
module Request {
  import opened Proton
  import opened Sequences

  /** What one dispatch step did. */
  datatype Outcome =
    | Idle                                   // stopped, not ready, or nothing pending
    | EndOfInput                             // the sentinel was consumed
    | Deferred(sender: Link)                 // no credit: the request went back to the backlog
    | Sent(sender: Link, message: Message)   // the request went out on `sender`

  /** One automatic dispatch moves the sender at the back of the pool to the front. */
  function Rotate<T>(s: seq<T>): seq<T>
    requires s != []
  {
    [s[|s| - 1]] + s[..|s| - 1]
  }

  /** The pool after `n` automatic dispatches. */
  function RotateN<T>(s: seq<T>, n: nat): (r: seq<T>)
    requires s != []
    ensures |r| == |s|
    decreases n
  {
    if n == 0 then s else RotateN(Rotate(s), n - 1)
  }

  /** The senders chosen, in order, by `n` consecutive automatic dispatches from pool `s`. */
  function Picks<T>(s: seq<T>, n: nat): seq<T>
    requires s != []
    decreases n
  {
    if n == 0 then [] else [s[|s| - 1]] + Picks(Rotate(s), n - 1)
  }

  /** Rotation keeps the pool's members, each as often as before. */
  lemma RotatePermutes<T>(s: seq<T>)
    requires s != []
    ensures |Rotate(s)| == |s|
    ensures multiset(Rotate(s)) == multiset(s)
    ensures Distinct(s) ==> Distinct(Rotate(s))
  {
    var last := s[|s| - 1];
    var front := s[..|s| - 1];
    assert s == front + [last];
    assert forall k :: 1 <= k < |s| ==> Rotate(s)[k] == s[k - 1];
  }

  /** After `n <= |s|` automatic dispatches the last `n` senders have moved, in order, to the front. */
  lemma {:induction false} RotateNSplit<T>(s: seq<T>, n: nat)
    requires s != [] && n <= |s|
    ensures RotateN(s, n) == s[|s| - n..] + s[..|s| - n]
    decreases n
  {
    if n == 0 {
      assert s[|s|..] == [] && s[..|s|] == s;
    } else {
      var r := Rotate(s);
      RotateNSplit(r, n - 1);
      var m := |s| - n;
      assert r[m + 1..] == s[m..|s| - 1];
      assert r[..m + 1] == [s[|s| - 1]] + s[..m];
      assert s[m..] == s[m..|s| - 1] + [s[|s| - 1]];
    }
  }

  /** A full round of automatic dispatches brings the pool back to its original order. */
  lemma RotateFullRound<T>(s: seq<T>)
    requires s != []
    ensures RotateN(s, |s|) == s
  {
    RotateNSplit(s, |s|);
    assert s[|s| - |s|..] == s && s[..|s| - |s|] == [];
  }

  /** The `i`-th automatic dispatch of a round uses the `i`-th sender counted from the back. */
  lemma {:induction false} PicksFromBack<T>(s: seq<T>, n: nat)
    requires s != [] && n <= |s|
    ensures |Picks(s, n)| == n
    ensures forall i :: 0 <= i < n ==> Picks(s, n)[i] == s[|s| - 1 - i]
    decreases n
  {
    if n > 0 {
      var r := Rotate(s);
      PicksFromBack(r, n - 1);
      assert forall k :: 1 <= k < |s| ==> r[k] == s[k - 1];
      forall i | 0 <= i < n
        ensures Picks(s, n)[i] == s[|s| - 1 - i]
      {
        if i > 0 {
          assert Picks(s, n)[i] == Picks(r, n - 1)[i - 1];
        }
      }
    }
  }

  /**
   * Round-robin fairness: over a pool of distinct senders, `|s|` consecutive
   * automatic dispatches use every pooled sender and never the same one twice.
   */
  lemma RoundRobinFair<T>(s: seq<T>)
    requires s != [] && Distinct(s)
    ensures Distinct(Picks(s, |s|))
    ensures forall x :: x in s <==> x in Picks(s, |s|)
  {
    var p := Picks(s, |s|);
    PicksFromBack(s, |s|);
    forall x | x in s
      ensures x in p
    {
      var k :| 0 <= k < |s| && s[k] == x;
      assert p[|s| - 1 - k] == x;
    }
  }

  class Dispatcher {
    /** The sender pool; index 0 is the deque's left end, where new and rotated senders go. */
    var senders: seq<Link>
    var receiversBySender: map<Link, Link>
    /** The pending backlog; the next item is the last element, where pop and push-back both act. */
    var pending: seq<Option<Message>>
    var sentRequests: nat
    var receivedResponses: nat
    var stopRequested: bool
    /** The command's readiness event, set once the links are open. */
    var ready: bool
    /** Whether the handler has been closed. */
    var closed: bool

    /**
     * Every pooled sender appears once and is paired with a reply receiver;
     * paired links send, and no two senders share a receiver.
     */
    ghost predicate Valid()
      reads this
    {
      && Distinct(senders)
      && (forall s :: s in senders ==> s in receiversBySender)
      && (forall s :: s in receiversBySender ==> s.isSender)
      && (forall s, t :: s in receiversBySender && t in receiversBySender && s != t ==>
            receiversBySender[s] != receiversBySender[t])
    }

    /** The request messages waiting in the backlog. */
    ghost function Queued(): set<Message>
      reads this
    {
      set i | 0 <= i < |pending| && pending[i].Some? :: pending[i].value
    }

    /** The next pending item. */
    ghost function Next(): Option<Message>
      requires pending != []
      reads this
    {
      pending[|pending| - 1]
    }

    /** The sender a dispatch for a real request uses: the triggering link, else the back of the pool. */
    ghost function Chosen(trigger: Option<Link>): Link
      requires trigger.Some? || senders != []
      reads this
    {
      if trigger.Some? then trigger.value else senders[|senders| - 1]
    }

    constructor (pending: seq<Option<Message>>)
      ensures Valid()
      ensures senders == [] && receiversBySender == map[] && this.pending == pending
      ensures sentRequests == 0 && receivedResponses == 0
      ensures !stopRequested && !ready && !closed
    {
      senders := [];
      receiversBySender := map[];
      this.pending := pending;
      sentRequests := 0;
      receivedResponses := 0;
      stopRequested := false;
      ready := false;
      closed := false;
    }

    /**
     * The input side: an item read from the command line or the input stream
     * joins the far end of the backlog, so items go out in arrival order and
     * the sentinel, added last, comes out last.
     */
    method Enqueue(item: Option<Message>)
      modifies this`pending
      ensures pending == [item] + old(pending)
    {
      pending := [item] + pending;
    }

    /**
     * Opens a request sender to `address` and its dynamic reply receiver,
     * whose address (`replyAddress`) the peer assigns.  The sender goes to
     * the front of the pool and is paired with the receiver.
     */
    method OpenLinks(address: string, replyAddress: Option<string>) returns (sender: Link, receiver: Link)
      requires Valid()
      modifies this`senders, this`receiversBySender
      ensures Valid()
      ensures fresh(sender) && fresh(receiver)
      ensures sender.isSender && sender.targetAddress == Some(address) && sender.sent == []
      ensures receiver.IsReceiver() && receiver.remoteSourceDynamic
      ensures receiver.remoteSourceAddress == replyAddress
      ensures senders == [sender] + old(senders)
      ensures sender !in old(receiversBySender)
      ensures receiversBySender == old(receiversBySender)[sender := receiver]
    {
      sender := new Link(true, false, None, None, Some(address), 0);
      receiver := new Link(false, true, replyAddress, None, None, 0);
      DistinctCons(sender, senders);
      senders := [sender] + senders;
      receiversBySender := receiversBySender[sender := receiver];
    }

    /** Whether the next dispatch step would take a real request off the backlog. */
    ghost predicate RequestDue()
      reads this
    {
      ready && !stopRequested && pending != [] && pending[|pending| - 1].Some?
    }

    /**
     * One dispatch step, for new credit on `trigger` or for new input
     * (`trigger` is None).  When a request is due, an automatic dispatch
     * needs a non-empty pool, and a triggering link holding credit must be
     * one of this client's paired senders.
     */
    method SendRequest(trigger: Option<Link>) returns (outcome: Outcome)
      requires Valid()
      requires RequestDue() && trigger.None? ==> senders != []
      requires RequestDue() && trigger.Some? && trigger.value.credit > 0 ==> trigger.value in receiversBySender
      modifies this, Queued(), receiversBySender.Keys`credit, receiversBySender.Keys`sent
      ensures Valid()
      ensures receiversBySender == old(receiversBySender)
      ensures receivedResponses == old(receivedResponses) && ready == old(ready)
      ensures outcome.Idle? <==> old(stopRequested || !ready || pending == [])
      ensures outcome.Idle? ==> unchanged(this) && unchanged(old(Queued())) && unchanged(receiversBySender.Keys)
      // the sentinel
      ensures outcome.EndOfInput? <==> old(!stopRequested && ready && pending != [] && Next().None?)
      ensures outcome.EndOfInput? ==>
        && pending == old(pending[..|pending| - 1])
        && senders == old(senders) && sentRequests == old(sentRequests)
        && closed == (old(closed) || old(sentRequests == receivedResponses))
        && stopRequested == old(sentRequests != receivedResponses)
        && unchanged(old(Queued())) && unchanged(receiversBySender.Keys)
      // a real request
      ensures (outcome.Deferred? || outcome.Sent?) <==> old(!stopRequested && ready && pending != [] && Next().Some?)
      ensures outcome.Deferred? || outcome.Sent? ==>
        && outcome.sender == old(Chosen(trigger))
        && senders == (if trigger.None? then Rotate(old(senders)) else old(senders))
        && stopRequested == old(stopRequested) && closed == old(closed)
      ensures outcome.Deferred? ==>
        && old(outcome.sender.credit) == 0
        && pending == old(pending) && sentRequests == old(sentRequests)
        && unchanged(old(Queued())) && unchanged(receiversBySender.Keys)
      ensures outcome.Sent? ==>
        var sender, message := outcome.sender, outcome.message;
        && old(sender.credit) > 0
        && old(Next()) == Some(message)
        && pending == old(pending[..|pending| - 1])
        && sentRequests == old(sentRequests) + 1
        && message.replyTo == receiversBySender[sender].remoteSourceAddress
        && message.address == (if old(message.address).None? then sender.targetAddress else old(message.address))
        && sender.sent == old(sender.sent) + [message]
        && sender.credit == old(sender.credit) - 1
        && (forall m :: m in old(Queued()) && m != message ==> unchanged(m))
        && (forall s :: s in receiversBySender && s != sender ==> unchanged(s))
    {
      outcome := Idle;
      if stopRequested {
        return;
      }
      if !ready {
        return;
      }
      if pending == [] {
        return;
      }
      var item := pending[|pending| - 1];
      pending := pending[..|pending| - 1];
      if item.None? {
        if sentRequests == receivedResponses {
          closed := true;
        } else {
          stopRequested := true;
        }
        return EndOfInput;
      }
      var sender := PickSender(trigger);
      if sender.credit == 0 {
        pending := pending + [item];
        return Deferred(sender);
      }
      SendOn(sender, item.value);
      outcome := Sent(sender, item.value);
    }

    /** The sender for a real request: the triggering link, else the pool's back sender, rotated to the front. */
    method PickSender(trigger: Option<Link>) returns (sender: Link)
      requires Valid()
      requires trigger.None? ==> senders != []
      modifies this`senders
      ensures Valid()
      ensures sender == old(Chosen(trigger))
      ensures trigger.None? ==> sender in receiversBySender
      ensures senders == (if trigger.None? then Rotate(old(senders)) else old(senders))
    {
      if trigger.None? {
        RotatePermutes(senders);
        sender := senders[|senders| - 1];
        senders := senders[..|senders| - 1];
        senders := [sender] + senders;
      } else {
        sender := trigger.value;
      }
    }

    /** The sending half of send_request: address the request, send it on `sender`, and count it. */
    method SendOn(sender: Link, message: Message)
      requires Valid() && sender in receiversBySender && sender.credit > 0
      modifies this`sentRequests, message`replyTo, message`address, sender`credit, sender`sent
      ensures sentRequests == old(sentRequests) + 1
      ensures message.replyTo == receiversBySender[sender].remoteSourceAddress
      ensures message.address == (if old(message.address).None? then sender.targetAddress else old(message.address))
      ensures sender.sent == old(sender.sent) + [message]
      ensures sender.credit == old(sender.credit) - 1
    {
      var receiver := receiversBySender[sender];
      message.replyTo := receiver.remoteSourceAddress;
      if message.address.None? {
        message.address := sender.targetAddress;
      }
      sender.Send(message);
      sentRequests := sentRequests + 1;
    }

    /**
     * A response arrives: it is counted, and the handler closes once the
     * sentinel has been seen and every request has had its response.
     */
    method OnMessage()
      modifies this`receivedResponses, this`closed
      ensures receivedResponses == old(receivedResponses) + 1
      ensures closed == (old(closed) || (stopRequested && sentRequests == receivedResponses))
    {
      receivedResponses := receivedResponses + 1;
      if stopRequested && sentRequests == receivedResponses {
        closed := true;
      }
    }
  }
}
