/** What a bearer tells the endpoint about one link. */
module Seam {
  import opened Bytes

  datatype Role = Dialer | Acceptor

  datatype Event = Up(link: nat, role: Role) | Data(link: nat, packet: Octets) | Down(link: nat)

  function DataEvents(link: nat, packets: seq<Octets>): (es: seq<Event>)
    ensures |es| == |packets|
  {
    seq(|packets|, i requires 0 <= i < |packets| => Data(link, packets[i]))
  }

  lemma DataAppended(link: nat, packets: seq<Octets>, packet: Octets)
    ensures DataEvents(link, packets + [packet]) == DataEvents(link, packets) + [Data(link, packet)]
  {
  }

  lemma DataJoined(link: nat, packets: seq<Octets>, more: seq<Octets>)
    ensures DataEvents(link, packets + more) == DataEvents(link, packets) + DataEvents(link, more)
  {
  }

  /** The whole life of a link that delivered `packets`. */
  function Life(link: nat, role: Role, packets: seq<Octets>): seq<Event> {
    [Up(link, role)] + DataEvents(link, packets) + [Down(link)]
  }

  lemma LifeEvents(link: nat, role: Role, packets: seq<Octets>)
    ensures var es := Life(link, role, packets);
            && |es| == |packets| + 2
            && es[0] == Up(link, role) && es[|packets| + 1] == Down(link)
            && forall i :: 0 <= i < |packets| ==> es[1 + i] == Data(link, packets[i])
  {
  }

  class Uplink {
    var events: seq<Event>

    constructor ()
      ensures events == []
    {
      events := [];
    }

    method RegisterLink(link: nat, role: Role)
      modifies this
      ensures events == old(events) + [Up(link, role)]
    {
      events := events + [Up(link, role)];
    }

    method Deliver(link: nat, packet: Octets)
      modifies this
      ensures events == old(events) + [Data(link, packet)]
    {
      events := events + [Data(link, packet)];
    }

    method LinkDown(link: nat)
      modifies this
      ensures events == old(events) + [Down(link)]
    {
      events := events + [Down(link)];
    }
  }
}
