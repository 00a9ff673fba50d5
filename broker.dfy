/**
 * The test broker of python/qtools/broker.py: a registry of named queues,
 * each a FIFO backlog with an ordered list of consumer (sender) links, and the
 * event handler that turns proton link, connection and message events into
 * registry operations.  Forwarding is credit-gated and strictly FIFO.
 */
module Broker {
  import opened Proton
  import opened Sequences

  function Min(a: nat, b: nat): nat {
    if a <= b then a else b
  }

  /**
   * What one call of forward_messages does to a backlog, as a value: the
   * messages that go out on a link holding `credit`, and what stays queued.
   */
  function Drain<T>(backlog: seq<T>, credit: nat): (r: (seq<T>, seq<T>))
    ensures |r.0| == Min(credit, |backlog|)
    ensures r.0 == backlog[..|r.0|] && r.1 == backlog[|r.0|..]
  {
    if credit == 0 || backlog == [] then ([], backlog)
    else
      var (out, rest) := Drain(backlog[1..], credit - 1);
      ([backlog[0]] + out, rest)
  }

  /** All batches, in order, joined into one sequence. */
  function Flatten<T>(batches: seq<seq<T>>): seq<T> {
    if batches == [] then [] else batches[0] + Flatten(batches[1..])
  }

  lemma DrainSplits<T>(backlog: seq<T>, credit: nat)
    ensures Drain(backlog, credit).0 + Drain(backlog, credit).1 == backlog
  {
    var d := Drain(backlog, credit);
    assert backlog == backlog[..|d.0|] + backlog[|d.0|..];
  }

  lemma FlattenCons<T>(batch: seq<T>, batches: seq<seq<T>>)
    ensures Flatten([batch] + batches) == batch + Flatten(batches)
  {
    assert ([batch] + batches)[1..] == batches;
  }

  /**
   * The routing policy of on_message as a value: forwarding is attempted on
   * every consumer in registration order, consumer i holding credits[i].
   * The result gives each consumer's batch and the backlog left over.
   */
  function Fanout<T>(backlog: seq<T>, credits: seq<nat>): (r: (seq<seq<T>>, seq<T>))
    ensures |r.0| == |credits|
  {
    if credits == [] then ([], backlog)
    else
      var drained := Drain(backlog, credits[0]);
      var tail := Fanout(drained.1, credits[1..]);
      ([drained.0] + tail.0, tail.1)
  }

  /** Nothing is lost, duplicated or reordered: the batches followed by the leftover are the backlog. */
  lemma {:induction false} FanoutPartitions<T>(backlog: seq<T>, credits: seq<nat>)
    ensures Flatten(Fanout(backlog, credits).0) + Fanout(backlog, credits).1 == backlog
  {
    if credits != [] {
      var drained := Drain(backlog, credits[0]);
      var tail := Fanout(drained.1, credits[1..]);
      FanoutPartitions(drained.1, credits[1..]);
      FlattenCons(drained.0, tail.0);
      DrainSplits(backlog, credits[0]);
    }
  }

  /** No consumer receives more than its credit, and a message stays queued only when every consumer's credit is spent. */
  lemma {:induction false} FanoutCreditGated<T>(backlog: seq<T>, credits: seq<nat>, i: nat)
    requires i < |credits|
    ensures |Fanout(backlog, credits).0[i]| <= credits[i]
    ensures Fanout(backlog, credits).1 != [] ==> |Fanout(backlog, credits).0[i]| == credits[i]
  {
    var (out, rest) := Drain(backlog, credits[0]);
    if i > 0 {
      FanoutCreditGated(rest, credits[1..], i - 1);
    } else if Fanout(backlog, credits).1 != [] {
      FanoutLeftoverShrinks(rest, credits[1..]);
    }
  }

  /** A fan-out never leaves more queued than it started from. */
  lemma {:induction false} FanoutLeftoverShrinks<T>(backlog: seq<T>, credits: seq<nat>)
    ensures |Fanout(backlog, credits).1| <= |backlog|
  {
    if credits != [] {
      var (out, rest) := Drain(backlog, credits[0]);
      FanoutLeftoverShrinks(rest, credits[1..]);
    }
  }

  /**
   * Registration order decides who gets the oldest message: consumers
   * registered before the first one holding credit receive nothing, and that
   * one receives the head of the backlog.
   */
  lemma {:induction false} FanoutOldestToFirstWithCredit<T>(backlog: seq<T>, credits: seq<nat>, i: nat)
    requires backlog != [] && i < |credits| && credits[i] > 0
    requires forall j :: 0 <= j < i ==> credits[j] == 0
    ensures forall j :: 0 <= j < i ==> Fanout(backlog, credits).0[j] == []
    ensures Fanout(backlog, credits).0[i] != [] && Fanout(backlog, credits).0[i][0] == backlog[0]
  {
    if i > 0 {
      assert credits[0] == 0;
      FanoutOldestToFirstWithCredit(backlog, credits[1..], i - 1);
    }
  }

  /**
   * Fanning out from consumer `i` onwards is one drain on consumer `i`,
   * which yields that consumer's batch, followed by the fan-out of what it
   * left over the consumers after it.
   */
  lemma FanoutAdvance<T>(backlog: seq<T>, credits: seq<nat>, batches: seq<seq<T>>, rest: seq<T>, i: nat)
    requires i < |credits| == |batches|
    requires Fanout(backlog, credits[i..]) == (batches[i..], rest)
    ensures Drain(backlog, credits[i]).0 == batches[i]
    ensures Fanout(Drain(backlog, credits[i]).1, credits[i + 1..]) == (batches[i + 1..], rest)
  {
    assert credits[i..][1..] == credits[i + 1..];
    assert batches[i..][1..] == batches[i + 1..];
  }

  /** A named queue: the backlog in arrival order and the consumer links in registration order. */
  class Queue {
    const address: Option<string>
    var messages: seq<Message>
    var consumers: seq<Link>

    /** Consumers are sender links, each registered at most once. */
    ghost predicate Valid()
      reads this
    {
      && Distinct(consumers)
      && forall l :: l in consumers ==> l.isSender
    }

    constructor (address: Option<string>)
      ensures Valid()
      ensures this.address == address && messages == [] && consumers == []
    {
      this.address := address;
      messages := [];
      consumers := [];
    }

    method AddConsumer(link: Link)
      requires Valid()
      requires link.isSender && link !in consumers
      modifies this`consumers
      ensures Valid()
      ensures consumers == old(consumers) + [link]
    {
      DistinctSnoc(consumers, link);
      consumers := consumers + [link];
    }

    /** Removing a link that is not registered is a no-op, not an error. */
    method RemoveConsumer(link: Link)
      requires Valid()
      requires link.isSender
      modifies this`consumers
      ensures Valid()
      ensures consumers == RemoveFirst(old(consumers), link)
      ensures link !in consumers
      ensures forall l :: l != link ==> (l in consumers <==> l in old(consumers))
    {
      RemoveFirstDistinct(consumers, link);
      consumers := RemoveFirst(consumers, link);
    }

    method StoreMessage(message: Message)
      modifies this`messages
      ensures messages == old(messages) + [message]
    {
      messages := messages + [message];
    }

    /**
     * Sends while the link has credit and the backlog is non-empty: exactly
     * min(credit, |backlog|) messages leave, oldest first, and each one costs
     * one unit of credit.
     */
    method ForwardMessages(link: Link)
      requires link.isSender
      modifies this`messages, link`credit, link`sent
      ensures var (out, rest) := Drain(old(messages), old(link.credit));
        && messages == rest
        && link.sent == old(link.sent) + out
        && link.credit == old(link.credit) - |out|
    {
      ghost var backlog, credit := messages, link.credit;
      ghost var k := 0;
      while link.credit > 0
        invariant k <= |backlog| && k <= credit
        invariant messages == backlog[k..]
        invariant link.sent == old(link.sent) + backlog[..k]
        invariant link.credit == credit - k
      {
        if messages == [] {
          break;
        }
        var message := messages[0];
        messages := messages[1..];
        assert backlog[..k + 1] == backlog[..k] + [message];
        k := k + 1;
        link.Send(message);
      }
    }

    /**
     * The forwarding loop of on_message: forward_messages on every consumer
     * in registration order, each consumer draining what the ones before it
     * left, as far as its own credit goes.
     */
    method ForwardToConsumers()
      requires Valid()
      modifies this`messages, (set l: Link | l in consumers)`credit, (set l: Link | l in consumers)`sent
      ensures var fan := Fanout(old(messages), old(Credits(consumers)));
        && messages == fan.1
        && (forall i :: 0 <= i < |consumers| ==> consumers[i].sent == old(consumers[i].sent) + fan.0[i])
        && (forall i :: 0 <= i < |consumers| ==> consumers[i].credit == old(consumers[i].credit) - |fan.0[i]|)
    {
      ghost var cs := consumers;
      ghost var credits := Credits(cs);
      ghost var fan := Fanout(messages, credits);
      var i := 0;
      while i < |consumers|
        invariant 0 <= i <= |cs| && consumers == cs && Distinct(cs)
        invariant Fanout(messages, credits[i..]) == (fan.0[i..], fan.1)
        invariant forall j :: 0 <= j < i ==>
          cs[j].sent == old(cs[j].sent) + fan.0[j] && cs[j].credit == credits[j] - |fan.0[j]|
        invariant forall j :: i <= j < |cs| ==> unchanged(cs[j])
      {
        var consumer := consumers[i];
        FanoutAdvance(messages, credits, fan.0, fan.1, i);
        ForwardMessages(consumer);
        i := i + 1;
      }
    }
  }

  /** The credit each link currently holds, in the order of `links`. */
  ghost function Credits(links: seq<Link>): (r: seq<nat>)
    reads set l | l in links
    ensures |r| == |links|
    ensures forall i :: 0 <= i < |links| ==> r[i] == links[i].credit
  {
    if links == [] then [] else [links[0].credit] + Credits(links[1..])
  }

  /**
   * The routing address a sender link is opened on: a broker-generated one
   * when the peer asks for a dynamic source, otherwise the one it names.
   */
  function OpeningAddress(link: Link, uuid: string): Option<string> {
    if link.remoteSourceDynamic then Some(uuid) else link.remoteSourceAddress
  }

  /** on_message's routing rule: the receiving link's fixed target, else the message's own address. */
  function RoutingAddress(target: Option<string>, messageAddress: Option<string>): Option<string> {
    if target.Some? then target else messageAddress
  }

  /** The source address of each link, in order. */
  ghost function SourceAddresses(links: seq<Link>): (r: seq<Option<string>>)
    reads set l | l in links
    ensures |r| == |links|
    ensures forall j :: 0 <= j < |links| ==> r[j] == links[j].sourceAddress
  {
    if links == [] then [] else [links[0].sourceAddress] + SourceAddresses(links[1..])
  }

  /** One link of the walk: a sender link whose source is `address` leaves the consumer list. */
  function DepartStep(consumers: seq<Link>, link: Link, source: Option<string>, address: Option<string>): seq<Link> {
    if link.isSender && source == address then RemoveFirst(consumers, link) else consumers
  }

  /**
   * The consumers of the queue at `address` once the sender links among
   * `links` whose source address (`sources`, position by position) is that
   * address have left it, one removal each, in order.
   */
  function Departed(consumers: seq<Link>, links: seq<Link>, sources: seq<Option<string>>,
                    address: Option<string>): seq<Link>
    requires |sources| == |links|
    decreases |links|
  {
    if links == [] then consumers
    else Departed(DepartStep(consumers, links[0], sources[0], address), links[1..], sources[1..], address)
  }

  /** With a duplicate-free consumer list, the walk keeps the list duplicate-free and adds no consumer. */
  lemma {:induction false} DepartedShrinks(consumers: seq<Link>, links: seq<Link>,
                                            sources: seq<Option<string>>, address: Option<string>)
    requires |sources| == |links| && Distinct(consumers)
    ensures Distinct(Departed(consumers, links, sources, address))
    ensures forall l :: l in Departed(consumers, links, sources, address) ==> l in consumers
    decreases |links|
  {
    if links != [] {
      var next := DepartStep(consumers, links[0], sources[0], address);
      RemoveFirstDistinct(consumers, links[0]);
      DepartedShrinks(next, links[1..], sources[1..], address);
    }
  }

  /** Every departing sender link whose source is `address` is gone afterwards. */
  lemma {:induction false} DepartedRemoves(consumers: seq<Link>, links: seq<Link>,
                                            sources: seq<Option<string>>, address: Option<string>, j: nat)
    requires |sources| == |links| && Distinct(consumers)
    requires j < |links| && links[j].isSender && sources[j] == address
    ensures links[j] !in Departed(consumers, links, sources, address)
    decreases |links|
  {
    var next := DepartStep(consumers, links[0], sources[0], address);
    RemoveFirstDistinct(consumers, links[0]);
    if j == 0 {
      DepartedShrinks(next, links[1..], sources[1..], address);
    } else {
      DepartedRemoves(next, links[1..], sources[1..], address, j - 1);
    }
  }

  /** A consumer that is not among the departing links stays registered. */
  lemma {:induction false} DepartedKeeps(consumers: seq<Link>, links: seq<Link>,
                                          sources: seq<Option<string>>, address: Option<string>, l: Link)
    requires |sources| == |links| && Distinct(consumers)
    requires l in consumers && l !in links
    ensures l in Departed(consumers, links, sources, address)
    decreases |links|
  {
    if links != [] {
      RemoveFirstDistinct(consumers, links[0]);
      DepartedKeeps(DepartStep(consumers, links[0], sources[0], address), links[1..], sources[1..], address, l);
    }
  }

  /**
   * When every departing link that is a consumer of the queue names that
   * queue, no departing sender link is a consumer afterwards.
   */
  lemma DepartedClears(consumers: seq<Link>, links: seq<Link>, sources: seq<Option<string>>,
                       address: Option<string>)
    requires |sources| == |links| && Distinct(consumers)
    requires forall j :: 0 <= j < |links| && links[j] in consumers ==> sources[j] == address
    ensures forall j :: 0 <= j < |links| && links[j].isSender ==>
      links[j] !in Departed(consumers, links, sources, address)
  {
    forall j | 0 <= j < |links| && links[j].isSender
      ensures links[j] !in Departed(consumers, links, sources, address)
    {
      if sources[j] == address {
        DepartedRemoves(consumers, links, sources, address, j);
      } else {
        DepartedShrinks(consumers, links, sources, address);
      }
    }
  }

  /** Walking one more link is one more departure step at the end. */
  lemma {:induction false} DepartedSnoc(consumers: seq<Link>, links: seq<Link>, sources: seq<Option<string>>,
                                        address: Option<string>, link: Link, source: Option<string>)
    requires |sources| == |links|
    ensures Departed(consumers, links + [link], sources + [source], address) ==
            DepartStep(Departed(consumers, links, sources, address), link, source, address)
    decreases |links|
  {
    if links != [] {
      assert (links + [link])[1..] == links[1..] + [link];
      assert (sources + [source])[1..] == sources[1..] + [source];
      DepartedSnoc(DepartStep(consumers, links[0], sources[0], address), links[1..], sources[1..],
                   address, link, source);
    }
  }

  /** The walk over the first `i + 1` links is the walk over the first `i` and one more step. */
  lemma DepartedPrefix(consumers: seq<Link>, links: seq<Link>, sources: seq<Option<string>>,
                       address: Option<string>, i: nat)
    requires |sources| == |links| && i < |links|
    ensures Departed(consumers, links[..i + 1], sources[..i + 1], address) ==
            DepartStep(Departed(consumers, links[..i], sources[..i], address), links[i], sources[i], address)
  {
    assert links[..i + 1] == links[..i] + [links[i]];
    assert sources[..i + 1] == sources[..i] + [sources[i]];
    DepartedSnoc(consumers, links[..i], sources[..i], address, links[i], sources[i]);
  }

  /**
   * The broker's event handler and the queue registry it owns.  The registry
   * is keyed by the routing address as proton reports it, which may be None
   * when neither the receiving link nor the message names a target.
   */
  class Handler {
    var queues: map<Option<string>, Queue>

    /**
     * Each queue is filed under its own address and keeps its own invariant,
     * and each consumer is attached to the queue its source address names.
     */
    ghost predicate Valid()
      reads this, queues.Values, ConsumerLinks()
    {
      && (forall a :: a in queues ==> queues[a].address == a && queues[a].Valid())
      && (forall a, l :: a in queues && l in queues[a].consumers ==> l.sourceAddress == a)
    }

    /** The backlog at `a`; an address not yet registered reads as the empty queue get_queue would create. */
    ghost function BacklogAt(a: Option<string>): seq<Message>
      reads this, queues.Values
    {
      if a in queues then queues[a].messages else []
    }

    ghost function ConsumersAt(a: Option<string>): seq<Link>
      reads this, queues.Values
    {
      if a in queues then queues[a].consumers else []
    }

    /** The links registered as consumers of the queue at `a`. */
    ghost function ConsumersOf(a: Option<string>): set<Link>
      reads this, queues.Values
    {
      set l | l in ConsumersAt(a)
    }

    /** Every link registered as a consumer of some queue. */
    ghost function ConsumerLinks(): set<Link>
      reads this, queues.Values
    {
      set a, l | a in queues && l in queues[a].consumers :: l
    }

    constructor ()
      ensures Valid() && queues == map[]
    {
      queues := map[];
    }

    /** Frame fact: changing the queue at `a` in a way that keeps its invariant keeps the registry's. */
    twostate lemma QueueUpdated(a: Option<string>)
      requires old(Valid()) && queues == old(queues) && a in queues
      requires forall b :: b in queues && b != a ==> unchanged(queues[b])
      requires queues[a].Valid()
      requires forall l :: l in queues[a].consumers ==> l.sourceAddress == a
      requires forall l :: l in old(ConsumerLinks()) ==> l.sourceAddress == old(l.sourceAddress)
      ensures Valid()
    {
    }

    /** Get-or-create: an unknown address gets one new, empty queue and nothing else in the registry changes. */
    method GetQueue(address: Option<string>) returns (queue: Queue)
      requires Valid()
      modifies this
      ensures Valid()
      ensures queues == old(queues)[address := queue] && queue.address == address
      ensures address in old(queues) ==> queue == old(queues[address])
      ensures address !in old(queues) ==> fresh(queue) && queue.messages == [] && queue.consumers == []
    {
      if address in queues {
        queue := queues[address];
      } else {
        queue := new Queue(address);
        queues := queues[address := queue];
      }
    }

    /**
     * A sender link is filed as a consumer of the queue named by a fresh
     * dynamic address (`uuid`) or by the address the peer asked for; a
     * receiver link adopts the peer's target address.  `ok` is false when a
     * sender link names no address at all (the handler's assertion fails and
     * nothing changes).
     */
    method OnLinkOpening(link: Link, uuid: string) returns (ok: bool)
      requires Valid()
      requires link.isSender ==> link !in ConsumerLinks()
      modifies this, queues.Values, link`sourceAddress, link`targetAddress
      ensures Valid()
      ensures ok <==> !(link.isSender && OpeningAddress(link, uuid).None?)
      ensures ok && link.isSender ==>
        var a := OpeningAddress(link, uuid);
        && link.sourceAddress == a
        && a in queues
        && queues == old(queues)[a := queues[a]]
        && (a !in old(queues) ==> fresh(queues[a]))
        && queues[a].messages == old(BacklogAt(a))
        && queues[a].consumers == old(ConsumersAt(a)) + [link]
      ensures link.isSender ==> link.targetAddress == old(link.targetAddress)
      ensures link.IsReceiver() ==>
        link.targetAddress == link.remoteTargetAddress && link.sourceAddress == old(link.sourceAddress)
      ensures !ok || link.IsReceiver() ==> queues == old(queues)
      ensures !ok ==> link.sourceAddress == old(link.sourceAddress)
      ensures forall b :: b in old(queues) && (!ok || link.IsReceiver() || b != OpeningAddress(link, uuid)) ==>
        unchanged(old(queues[b]))
    {
      ok := true;
      if link.isSender {
        var address := OpeningAddress(link, uuid);
        if address.None? {
          return false;
        }
        link.sourceAddress := address;
        var queue := GetQueue(address);
        label Found:
        assert link !in queue.consumers;
        queue.AddConsumer(link);
        QueueUpdated@Found(address);
      }
      if link.IsReceiver() {
        link.targetAddress := link.remoteTargetAddress;
      }
    }

    /**
     * A closing sender link leaves the consumer list of the queue named by
     * its source address.  The handler in the repository refers to an unbound
     * name instead of the event's link; this models the evident intent.
     * `ok` is false when no queue is registered under that address (the
     * registry lookup fails and nothing changes).
     */
    method OnLinkClosing(link: Link) returns (ok: bool)
      requires Valid()
      modifies queues.Values
      ensures Valid()
      ensures link.sourceAddress == old(link.sourceAddress)
      ensures ok <==> (link.IsReceiver() || link.sourceAddress in queues)
      ensures queues == old(queues)
      ensures forall a :: a in queues ==> queues[a].messages == old(queues[a].messages)
      ensures forall a :: a in queues ==>
        queues[a].consumers == DepartStep(old(queues[a].consumers), link, link.sourceAddress, a)
      ensures link.isSender && ok ==> link !in queues[link.sourceAddress].consumers
    {
      ok := true;
      if link.isSender {
        if link.sourceAddress !in queues {
          return false;
        }
        var queue := queues[link.sourceAddress];
        queue.RemoveConsumer(link);
        QueueUpdated(link.sourceAddress);
      }
    }

    /**
     * Disconnection: every remote-active sender link of the connection
     * (`links`, in the engine's order) leaves the consumer list of its
     * source-address queue.  No backlog changes, so messages queued for a
     * departing consumer stay queued.  `ok` is false when some sender link's
     * address has no queue; the walk stops at that link, position `walked`,
     * as the KeyError would, and only the links before it have departed.
     * After a complete walk no departing sender link is a consumer anywhere.
     */
    method RemoveConsumers(links: seq<Link>) returns (ok: bool, ghost walked: nat)
      requires Valid()
      modifies queues.Values
      ensures Valid()
      ensures queues == old(queues)
      ensures ok <==> forall i :: 0 <= i < |links| && links[i].isSender ==> links[i].sourceAddress in queues
      ensures forall a :: a in queues ==> queues[a].messages == old(queues[a].messages)
      ensures walked <= |links| && (ok <==> walked == |links|)
      ensures forall i :: 0 <= i < walked && links[i].isSender ==> links[i].sourceAddress in queues
      ensures !ok ==> links[walked].isSender && links[walked].sourceAddress !in queues
      ensures forall a :: a in queues ==>
        queues[a].consumers == Departed(old(queues[a].consumers), links[..walked], old(SourceAddresses(links))[..walked], a)
      ensures ok ==> forall i :: 0 <= i < |links| && links[i].isSender ==> links[i] !in ConsumerLinks()
    {
      ghost var sources := SourceAddresses(links);
      ok, walked := DepartLinks(links, sources);
      if ok {
        assert links[..walked] == links && sources[..walked] == sources;
        forall a | a in queues
          ensures forall j :: 0 <= j < |links| && links[j].isSender ==> links[j] !in queues[a].consumers
        {
          DepartedClears(old(queues[a].consumers), links, sources, a);
        }
      }
    }

    /** The loop of remove_consumers: the departure walk up to the first sender link whose queue is missing. */
    method DepartLinks(links: seq<Link>, ghost sources: seq<Option<string>>) returns (ok: bool, ghost walked: nat)
      requires Valid() && |sources| == |links|
      requires forall j :: 0 <= j < |links| ==> links[j].sourceAddress == sources[j]
      modifies queues.Values
      ensures Valid()
      ensures queues == old(queues)
      ensures forall a :: a in queues ==> queues[a].messages == old(queues[a].messages)
      ensures walked <= |links| && (ok <==> walked == |links|)
      ensures forall i :: 0 <= i < walked && links[i].isSender ==> sources[i] in queues
      ensures !ok ==> links[walked].isSender && sources[walked] !in queues
      ensures forall a :: a in queues ==>
        queues[a].consumers == Departed(old(queues[a].consumers), links[..walked], sources[..walked], a)
    {
      ghost var before := map a | a in queues :: queues[a].consumers;
      var i := 0;
      while i < |links|
        invariant 0 <= i <= |links|
        invariant forall j :: 0 <= j < i && links[j].isSender ==> sources[j] in queues
        invariant forall j :: 0 <= j < |links| ==> links[j].sourceAddress == sources[j]
        invariant queues == old(queues) && Valid()
        invariant forall a :: a in queues ==> queues[a].messages == old(queues[a].messages)
        invariant forall a :: a in queues ==>
          queues[a].consumers == Departed(before[a], links[..i], sources[..i], a)
      {
        ok := DepartNext(links, sources, before, i);
        if !ok {
          return false, i;
        }
        i := i + 1;
      }
      return true, i;
    }

    /** One round of the remove_consumers loop: the departure step of `links[i]`. */
    method DepartNext(links: seq<Link>, ghost sources: seq<Option<string>>,
                      ghost before: map<Option<string>, seq<Link>>, i: nat) returns (ok: bool)
      requires Valid() && i < |links| && |sources| == |links| && sources[i] == links[i].sourceAddress
      requires forall a :: a in queues ==>
        a in before && queues[a].consumers == Departed(before[a], links[..i], sources[..i], a)
      modifies queues.Values
      ensures Valid() && queues == old(queues)
      ensures ok <==> !links[i].isSender || sources[i] in queues
      ensures forall j :: 0 <= j < |links| ==> links[j].sourceAddress == old(links[j].sourceAddress)
      ensures forall a :: a in queues ==> queues[a].messages == old(queues[a].messages)
      ensures ok ==> forall a :: a in queues ==>
        queues[a].consumers == Departed(before[a], links[..i + 1], sources[..i + 1], a)
      ensures !ok ==> forall a :: a in queues ==> queues[a].consumers == old(queues[a].consumers)
    {
      ok := OnLinkClosing(links[i]);
      if ok {
        forall a | a in queues
          ensures queues[a].consumers == Departed(before[a], links[..i + 1], sources[..i + 1], a)
        {
          DepartedPrefix(before[a], links, sources, a, i);
        }
      }
    }

    /** The storing half of on_message: the message joins the back of the queue at `address`. */
    method StoreArrival(address: Option<string>, message: Message) returns (queue: Queue)
      requires Valid()
      modifies this, queues.Values
      ensures Valid()
      ensures queues == old(queues)[address := queue] && queue.address == address
      ensures address in old(queues) ==> queue == old(queues[address])
      ensures address !in old(queues) ==> fresh(queue)
      ensures queue.messages == old(BacklogAt(address)) + [message]
      ensures queue.consumers == old(ConsumersAt(address))
      ensures forall l :: l in queue.consumers ==> l in old(ConsumerLinks())
      ensures Credits(queue.consumers) == old(Credits(ConsumersAt(address)))
      ensures var consumers := old(ConsumersAt(address));
        forall i :: 0 <= i < |consumers| ==> consumers[i].sent == old(consumers[i].sent)
      ensures forall b :: b in old(queues) && b != address ==> unchanged(old(queues[b]))
    {
      queue := GetQueue(address);
      label Found:
      queue.StoreMessage(message);
      QueueUpdated@Found(address);
      ghost var consumers := queue.consumers;
      forall j | 0 <= j < |consumers|
        ensures Credits(consumers)[j] == old(Credits(consumers))[j]
      {
        assert consumers[j].credit == old(consumers[j].credit);
      }
    }

    /**
     * A message arriving on a receiver link is stored on the queue named by
     * the link's target address, or by the message's own address when the
     * link has none, and forwarding is then attempted on every consumer of
     * that queue in registration order.
     */
    method OnMessage(link: Link, message: Message)
      requires Valid() && link.IsReceiver()
      modifies this, queues.Values
      modifies ConsumersOf(RoutingAddress(link.targetAddress, message.address))`credit
      modifies ConsumersOf(RoutingAddress(link.targetAddress, message.address))`sent
      ensures Valid()
      ensures var a := RoutingAddress(old(link.targetAddress), message.address);
        && a in queues
        && queues == old(queues)[a := queues[a]]
        && (a !in old(queues) ==> fresh(queues[a]))
        && queues[a].consumers == old(ConsumersAt(a))
      ensures var a := RoutingAddress(old(link.targetAddress), message.address);
        var consumers := old(ConsumersAt(a));
        var fan := Fanout(old(BacklogAt(a)) + [message], old(Credits(consumers)));
        && queues[a].messages == fan.1
        && (forall i :: 0 <= i < |consumers| ==> consumers[i].sent == old(consumers[i].sent) + fan.0[i])
        && (forall i :: 0 <= i < |consumers| ==> consumers[i].credit == old(consumers[i].credit) - |fan.0[i]|)
      ensures forall b :: b in old(queues) && b != RoutingAddress(old(link.targetAddress), message.address) ==>
        unchanged(old(queues[b]))
    {
      var address := RoutingAddress(link.targetAddress, message.address);
      var queue := StoreArrival(address, message);
      ForwardStored(queue);
    }

    /** The forwarding half of on_message, on a registered queue: the registry invariant survives it. */
    method ForwardStored(queue: Queue)
      requires Valid() && queue.address in queues && queues[queue.address] == queue
      modifies queue`messages, (set l: Link | l in queue.consumers)`credit, (set l: Link | l in queue.consumers)`sent
      ensures Valid()
      ensures var fan := Fanout(old(queue.messages), old(Credits(queue.consumers)));
        && queue.messages == fan.1
        && (forall i :: 0 <= i < |queue.consumers| ==>
              queue.consumers[i].sent == old(queue.consumers[i].sent) + fan.0[i])
        && (forall i :: 0 <= i < |queue.consumers| ==>
              queue.consumers[i].credit == old(queue.consumers[i].credit) - |fan.0[i]|)
    {
      queue.ForwardToConsumers();
      QueueUpdated(queue.address);
    }

    /** New credit on a consumer link: forward from the queue named by its source address. */
    method OnSendable(link: Link)
      requires Valid() && link.isSender
      modifies this, queues.Values, link`credit, link`sent
      ensures Valid()
      ensures var a := link.sourceAddress;
        && a in queues
        && queues == old(queues)[a := queues[a]]
        && (a !in old(queues) ==> fresh(queues[a]))
        && queues[a].consumers == old(ConsumersAt(a))
      ensures var (out, rest) := Drain(old(BacklogAt(link.sourceAddress)), old(link.credit));
        && queues[link.sourceAddress].messages == rest
        && link.sent == old(link.sent) + out
        && link.credit == old(link.credit) - |out|
      ensures forall b :: b in old(queues) && b != link.sourceAddress ==> unchanged(old(queues[b]))
    {
      var queue := GetQueue(link.sourceAddress);
      label Found:
      queue.ForwardMessages(link);
      QueueUpdated@Found(link.sourceAddress);
    }
  }
}
