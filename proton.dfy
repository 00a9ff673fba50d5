/**
 * The slice of the proton AMQP engine that the broker and the request client
 * touch: messages, links with flow-control credit, and an optional value for
 * the engine's `None` addresses.  Networking, sessions, deliveries and
 * settlement stay outside the model.
 */
module Proton {

  datatype Option<+T> = None | Some(value: T)

  /** A proton message: the two header fields the core reads or writes, and a body. */
  class Message {
    var address: Option<string>
    var replyTo: Option<string>
    const body: string

    constructor (address: Option<string>, body: string)
      ensures this.address == address && this.replyTo == None && this.body == body
    {
      this.address := address;
      this.replyTo := None;
      this.body := body;
    }
  }

  /**
   * A proton link.  Its direction and the terminus the remote peer proposed
   * are fixed when the link is attached; the local source and target
   * addresses and the credit change.  `sent` records every message handed to
   * the engine on this link, oldest first.
   */
  class Link {
    const isSender: bool
    const remoteSourceDynamic: bool
    const remoteSourceAddress: Option<string>
    const remoteTargetAddress: Option<string>

    var sourceAddress: Option<string>
    var targetAddress: Option<string>
    var credit: nat
    var sent: seq<Message>

    /** Proton derives the receiver capability from the sender flag. */
    predicate IsReceiver() {
      !isSender
    }

    constructor (isSender: bool, remoteSourceDynamic: bool,
                 remoteSourceAddress: Option<string>, remoteTargetAddress: Option<string>,
                 targetAddress: Option<string>, credit: nat)
      ensures this.isSender == isSender && this.remoteSourceDynamic == remoteSourceDynamic
      ensures this.remoteSourceAddress == remoteSourceAddress
      ensures this.remoteTargetAddress == remoteTargetAddress
      ensures this.sourceAddress == None && this.targetAddress == targetAddress
      ensures this.credit == credit && this.sent == []
    {
      this.isSender := isSender;
      this.remoteSourceDynamic := remoteSourceDynamic;
      this.remoteSourceAddress := remoteSourceAddress;
      this.remoteTargetAddress := remoteTargetAddress;
      this.sourceAddress := None;
      this.targetAddress := targetAddress;
      this.credit := credit;
      this.sent := [];
    }

    /** Hands `m` to the engine: one unit of credit is consumed per message. */
    method Send(m: Message)
      requires isSender && credit > 0
      modifies this`credit, this`sent
      ensures sent == old(sent) + [m]
      ensures credit == old(credit) - 1
    {
      sent := sent + [m];
      credit := credit - 1;
    }
  }
}
