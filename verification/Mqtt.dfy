/**
 The message callback: the variables through which it talks to the relay and handshake loops.
 */
module Mqtt {

  datatype Handshake = NoHandshake | FirstHandshake | BothHandshake

  /** rth_hs, rth_data_received and rth_datapacket. */
  datatype Shared = Shared(handshake: Handshake, dataReceived: bool, datapacket: string)

  /** The two topics of a configuration. */
  datatype Topics = Topics(evMessage: string, evseMessage: string)

  /** What one message does to the shared variables. */
  function Handled(s: Shared, topics: Topics, topic: string, message: string): (r: Shared)
    ensures message == "1" ==> r.dataReceived == s.dataReceived && r.datapacket == s.datapacket
    ensures message != "1" ==> r.handshake == s.handshake
  {
    if topic == topics.evMessage then
      if message == "1" then s.(handshake := BothHandshake) else s.(dataReceived := true, datapacket := message)
    else if topic == topics.evseMessage then
      if message == "1" then s.(handshake := FirstHandshake) else s.(dataReceived := true, datapacket := message)
    else s
  }

  class Client {
    const topics: Topics
    var handshake: Handshake
    var dataReceived: bool
    var datapacket: string

    constructor (topics: Topics)
      ensures this.topics == topics && State() == Shared(NoHandshake, false, "")
    {
      this.topics := topics;
      handshake, dataReceived, datapacket := NoHandshake, false, "";
    }

    function State(): Shared
      reads this
    {
      Shared(handshake, dataReceived, datapacket)
    }

    method HandleMessage(topic: string, message: string)
      modifies this
      ensures State() == Handled(old(State()), topics, topic, message)
    {
      if topic == topics.evMessage {
        if message == "1" {
          handshake := BothHandshake;
        } else {
          dataReceived := true;
          datapacket := message;
        }
      } else if topic == topics.evseMessage {
        if message == "1" {
          handshake := FirstHandshake;
        } else {
          dataReceived := true;
          datapacket := message;
        }
      }
    }
  }
}
