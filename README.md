# qtools broker and request client, modelled in Dafny

qtools is a set of small AMQP command-line tools built on the proton engine.
This project models the two state machines at their core.

- **The test broker** (`python/qtools/broker.py`). A registry maps each address
  to a queue. Lookup is get-or-create. A queue holds a FIFO backlog of messages
  and an ordered, duplicate-free list of consumer links (sender links).
  Forwarding is credit-gated and strictly FIFO: a consumer holding `credit`
  receives `min(credit, |backlog|)` messages, oldest first. The handler turns
  link, connection and message events into registry operations. Opening a
  sender link registers a consumer. Closing a link or connection unregisters
  consumers. An arriving message is stored and then offered to every consumer
  in registration order.
- **The request client** (`python/qtools/request.py`). It keeps a pool of sender
  links served round-robin. Each sender is paired with a dynamic reply
  receiver. A backlog of pending requests ends in an end-of-input sentinel.
  Two counters, requests sent and responses received, decide when the
  exchange is over.

Files:

- `proton.dfy` (module `Proton`): the part of the engine the core touches.
  A `Message` has an address, a reply-to address and a body. A `Link` has a
  direction, remote terminus data, local source/target addresses, `credit`
  and a log `sent` of the messages handed to the engine. `Link.Send` appends
  to the log and consumes one unit of credit.
- `sequences.dfy` (module `Sequences`): duplicate-freedom, and Python's
  `list.remove` as `RemoveFirst`.
- `broker.dfy` (module `Broker`): class `Queue` and class `Handler`. It also
  holds the value-level reference functions the methods are proved against.
  `Drain` is one `forward_messages` call. `Fanout` is the forwarding loop of
  `on_message`. `Departed` is the removal walk of `remove_consumers`.
- `request.dfy` (module `Request`): class `Dispatcher`, and the pool rotation
  `Rotate`/`RotateN`/`Picks` with the round-robin fairness lemmas.

The methods are imperative, as in the source:

- deques and lists are `seq` fields that the methods reassign;
- the registry and the sender-to-receiver table are `map` fields;
- `forward_messages` is a `while` loop over the link's credit;
- `remove_consumers` and the forwarding in `on_message` are loops over links.

Each method's `ensures` ties the new state to the reference function. The
reference functions carry the lemmas.

Python exceptions that end a handler early appear as a boolean `ok`. These
are the `KeyError` in the registry lookup of
`remove_consumers`/`on_link_closing`, and the `assert address is not None` in
`on_link_opening`. Assertions that guard against programming errors become
`requires` clauses, for example `add_consumer`'s "not already registered".

Three behaviours of the code are easy to misread; the model follows the code:

- `on_link_closing` refers to the unbound name `link` (broker.py:146-147). As
  written it raises `NameError` for every sender link. `Handler.OnLinkClosing`
  models the evident intent, which is to use the event's link.
- When `send_request` pops the sentinel while the counters are equal, it calls
  `close` and leaves `stop_requested` false (request.py:152-153). Only the
  unequal case sets `stop_requested`. The model does the same.
- A request deferred for lack of credit goes back on the same end of the
  backlog it was popped from (request.py:147, 166). So it is the next item
  again, and the backlog equals its value before the call.

## Model

| member | source | states |
|---|---|---|
| Sequences.RemoveFirst | python/qtools/broker.py:79 | `list.remove` as a function: the first copy of the link goes, and a missing link leaves the list as it is. Its meaning is stated by the lemmas below. |
| Sequences.RemoveFirstAt | python/qtools/broker.py:79 | when the first copy of `x` is at position k, removal is the list without position k: the copies before it and every survivor keep their order |
| Sequences.RemoveFirstSpec | python/qtools/broker.py:78-81 | `list.remove`, with ValueError swallowed: an absent link leaves the list as it was; a present one costs exactly one copy (length and multiset) |
| Sequences.RemoveFirstDistinct | python/qtools/broker.py:75-81 | on a duplicate-free consumer list, removal keeps it duplicate-free, takes the link out completely, and keeps every other consumer and adds none |
| Sequences.RemoveFirstIdempotent | python/qtools/broker.py:75-81 | removing a consumer twice leaves the same list as removing it once |
| Broker.Drain | python/qtools/broker.py:90-99 | one forwarding call sends exactly min(credit, backlog length) messages, which are the oldest ones in order; what stays queued is the rest of the backlog |
| Broker.Fanout | python/qtools/broker.py:209-210 | the forwarding loop of `on_message` as a value: one batch per consumer, each a `Drain` of what the consumers before it left. Its meaning is stated by the lemmas below. |
| Broker.FanoutPartitions | python/qtools/broker.py:206-210 | forwarding to all consumers in turn loses, duplicates and reorders nothing: the consumers' batches in registration order, followed by the leftover, are exactly the backlog |
| Broker.FanoutCreditGated | python/qtools/broker.py:93-99 | no consumer receives more than its credit, and a message stays queued only if every consumer's credit was used up |
| Broker.FanoutOldestToFirstWithCredit | python/qtools/broker.py:209-210 | consumers registered before the first one holding credit receive nothing, and that one receives the oldest message |
| Broker.Queue.constructor | python/qtools/broker.py:55-60 | a new queue has its address, an empty backlog and no consumers |
| Broker.Queue.AddConsumer | python/qtools/broker.py:67-71 | requires a sender link that is not yet registered; appends it at the end, so consumers stay duplicate-free sender links |
| Broker.Queue.RemoveConsumer | python/qtools/broker.py:75-81 | requires a sender link; the list becomes `list.remove` of it (a no-op when absent); afterwards the link is gone and every other consumer is kept; only `consumers` may change, so the backlog is untouched |
| Broker.Queue.StoreMessage | python/qtools/broker.py:85-86 | the message joins the back of the backlog; only the backlog changes |
| Broker.Queue.ForwardMessages | python/qtools/broker.py:90-99 | the loop sends what `Drain` of the backlog and the credit sends: the link's log grows by those messages, the backlog loses them from the front, and the credit drops by their number |
| Broker.Queue.ForwardToConsumers | python/qtools/broker.py:209-210 | forwarding on each consumer in registration order leaves the backlog and each consumer's log and credit as `Fanout` of the old backlog and credits says |
| Broker.OpeningAddress | python/qtools/broker.py:128-131 | the address a sender link is opened on: the generated one when the peer asks for a dynamic source, else the one the peer names |
| Broker.RoutingAddress | python/qtools/broker.py:201-204 | the routing rule of `on_message`: the receiving link's target address, else the message's own address |
| Broker.DepartStep | python/qtools/broker.py:171-173 | one link of a disconnect: a sender link whose source address is this queue's leaves it, any other link changes nothing |
| Broker.Departed | python/qtools/broker.py:170-175 | the consumer list of one queue after the departure steps of a connection's links, in order |
| Broker.DepartedShrinks | python/qtools/broker.py:167-175 | the removal walk of a disconnect keeps a consumer list duplicate-free and never adds a consumer |
| Broker.DepartedRemoves | python/qtools/broker.py:170-173 | every departing sender link whose source address names the queue is no longer one of its consumers |
| Broker.DepartedKeeps | python/qtools/broker.py:170-175 | a consumer that is not among the connection's links stays registered |
| Broker.DepartedClears | python/qtools/broker.py:170-175 | when every departing link that is a consumer of the queue names that queue, no departing sender link is a consumer after the walk |
| Broker.DepartedPrefix | python/qtools/broker.py:170-175 | walking one more link is one more departure step at the end, so the walk can stop after any prefix |
| Broker.Handler.constructor | python/qtools/broker.py:104-108 | the registry starts empty |
| Broker.Handler.GetQueue | python/qtools/broker.py:118-124 | get-or-create: a registered address yields its queue; otherwise exactly one new queue, with an empty backlog and no consumers, is added under that address; no other entry changes |
| Broker.Handler.OnLinkOpening | python/qtools/broker.py:126-142 | a sender link is given the generated or the requested address as its source and appended to that queue's consumers; the backlog is unchanged; with no address it fails and changes nothing; a receiver link takes the remote target address verbatim and leaves the registry alone; other queues are unchanged; only the link's addresses may change, never its credit or log; every consumer stays attached to the queue its source address names |
| Broker.Handler.OnLinkClosing | python/qtools/broker.py:144-147 | every consumer list becomes one departure step of the link: a sender link leaves the list of the queue named by its source address and no other list; it fails, changing no list, when no such queue exists; receiver links change nothing; no backlog changes |
| Broker.Handler.RemoveConsumers | python/qtools/broker.py:167-175 | succeeds exactly when every sender link's source address has a queue; the walk stops at position `walked`, the first sender link without a queue (where the `KeyError` ends it), or at the end; every queue's consumers are the `Departed` walk of the old list over the links before that position; after a success no departing sender link is a consumer of any queue; no backlog ever changes, so queued messages survive a disconnect |
| Broker.Handler.DepartLinks | python/qtools/broker.py:170-175 | the loop itself: it stops at the first sender link whose address has no queue, or at the end, and every queue's consumers are the `Departed` walk of the old list over the links before that point |
| Broker.Handler.DepartNext | python/qtools/broker.py:171-175 | one round of the loop: with a queue for the link's address, every consumer list takes one more departure step; without one, it fails and no list changes |
| Broker.Handler.StoreArrival | python/qtools/broker.py:206-207 | the message joins the back of the backlog of the get-or-created queue; consumers, their credits and logs, and all other queues are unchanged |
| Broker.Handler.OnMessage | python/qtools/broker.py:198-210 | routes to the link's target address, else to the message's address; that queue ends with the leftover of `Fanout` over the old backlog plus the message; each of its consumers receives its `Fanout` batch and loses that much credit; other queues are unchanged, and only that queue's consumers may change credit or log |
| Broker.Handler.ForwardStored | python/qtools/broker.py:209-210 | forwarding on a registered queue leaves its backlog and its consumers' logs and credits as `Fanout` says, and keeps the registry invariant |
| Broker.Handler.OnSendable | python/qtools/broker.py:177-179 | forwarding on the link from the get-or-created queue of its source address, as `Drain` says; other queues are unchanged |
| Proton.Link.Send | python/qtools/broker.py:99 | a send appends the message to the link's log and consumes one unit of credit |
| Request.Rotate | python/qtools/request.py:162-163 | one automatic dispatch: the sender at the back of the pool moves to the front. Its meaning is stated by `RotatePermutes`. |
| Request.Picks | python/qtools/request.py:161-163 | the senders chosen, in order, by n consecutive automatic dispatches. Its meaning is stated by `PicksFromBack` and `RoundRobinFair`. |
| Request.RotateN | python/qtools/request.py:162-163 | rotating the pool keeps its size |
| Request.RotatePermutes | python/qtools/request.py:162-163 | one rotation keeps the same senders, each as often as before, and keeps the pool duplicate-free |
| Request.RotateNSplit | python/qtools/request.py:162-163 | after n automatic dispatches, n at most the pool size, the last n senders have moved, in order, to the front |
| Request.RotateFullRound | python/qtools/request.py:162-163 | as many automatic dispatches as there are senders bring the pool back to its original order |
| Request.PicksFromBack | python/qtools/request.py:161-163 | the i-th automatic dispatch of a round uses the i-th sender counted from the back of the pool |
| Request.RoundRobinFair | python/qtools/request.py:161-163 | over a duplicate-free pool of N senders, N consecutive automatic dispatches use every sender exactly once |
| Request.Dispatcher.constructor | python/qtools/request.py:89-97 | empty pool and table, both counters zero, not stopped, not ready, not closed |
| Request.Dispatcher.Enqueue | python/qtools/request.py:77-82 | an input item (request or sentinel) joins the far end of the backlog |
| Request.Dispatcher.OpenLinks | python/qtools/request.py:99-111 | a fresh sender to the address and a fresh dynamic receiver; the sender goes to the front of the pool and is paired with the receiver; existing pool order and pairings are unchanged |
| Request.Dispatcher.Chosen | python/qtools/request.py:159-163 | the sender a real request goes to: the triggering link, else the sender at the back of the pool |
| Request.Dispatcher.SendRequest | python/qtools/request.py:139-177 | it changes nothing when stopped, not ready or nothing is pending. The sentinel is consumed: close when the counters are equal, else set `stop_requested`. A request goes to the triggering link, else to the pool's back sender, which is rotated to the front. With zero credit the backlog is restored and nothing is counted. Otherwise `reply_to` is the paired receiver's address, a missing address becomes the sender's target, the message is sent and `sent_requests` grows by one. No other link or message changes, and no link's addresses change. |
| Request.Dispatcher.PickSender | python/qtools/request.py:159-163 | the triggering link if there is one; otherwise the sender at the back of the pool, which is rotated to the front; the pool stays duplicate-free and fully paired |
| Request.Dispatcher.SendOn | python/qtools/request.py:169-177 | `reply_to` becomes the paired receiver's address; the message address becomes the sender's target only if it was None; the message joins the sender's log at the cost of one credit; `sent_requests` grows by one |
| Request.Dispatcher.OnMessage | python/qtools/request.py:119-137 | `received_responses` grows by exactly one; the handler closes iff it stopped and the counters are now equal |

## Left out

- Networking and the engine: `listen`/`on_start` (broker.py:111-116), creating links, connection traversal and deliveries. Links are objects whose fields the engine sets. A connection's remote-active links are a given sequence.
- `on_settled` (broker.py:181-196) and `on_connection_opened`/`on_connection_closed` (broker.py:153-160) only log. `on_connection_opening` (broker.py:149-151) records the container id on the connection, which is informational engine state. None of these is modelled.
- Logging, response printing and JSON rendering (request.py:122-133) are output only.
- Command-line parsing and file handling (broker.py:37-52, request.py:42-86) are not modelled, except that queued input is added through `Dispatcher.Enqueue`.
- `uuid.uuid4()` (broker.py:129) becomes the `uuid` parameter of `OnLinkOpening`. Its uniqueness is not modelled.
- The input thread and the `ready` threading event are cross-thread concurrency. `ready` is a boolean field. Input arrival is `Enqueue`, which adds at the far end of the backlog. That end is an assumption, because the producer is in `common.py`, and `common.py` is not part of this model.
- `close` is in `common.py`, so the model only sets `closed`. Closing links and connections, and flushing output, are not modelled.
- The at-most-once delivery option of `open_links` (request.py:102-103) is not modelled: settlement is outside the model.
- `on_sendable` and `on_input` (request.py:113-117) only call `send_request`. They correspond to `SendRequest(Some(link))` and `SendRequest(None)`.
- The broker's `on_connection_closing`/`on_disconnected` (broker.py:156-165) only call `remove_consumers`. They are modelled through `RemoveConsumers`.
- The `delivery` argument of `store_message` and the queue's `command` back-reference are used only for logging.
- Proton.Link.Send: requires positive credit. Every caller here checks credit first; what proton does with a message sent without credit is not modelled.
- Request.Dispatcher.SendRequest: two crash paths are left out. Both apply only when a real request is due, and each is a `requires`. First, a triggering link that holds credit must be one of this client's paired senders; otherwise the table lookup raises `KeyError`. Second, an automatic dispatch needs a non-empty pool; otherwise the deque pop raises `IndexError` after the request has already left the backlog.
- `Link.remoteSourceAddress` is fixed when the link is created. So `OpenLinks` takes the reply address the peer will assign as a parameter, although in the engine it becomes known only once the peer attaches.
- Broker.Handler.OnLinkOpening: requires that a sender link is not yet a consumer anywhere. This stands in for `add_consumer`'s assertion, since proton raises link-opening once per link.
- Broker.Handler.OnLinkClosing: models the evident intent. As written, the handler raises `NameError` for every sender link (broker.py:146-147).
