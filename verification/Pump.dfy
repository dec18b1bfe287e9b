/** How the pump hands a drained batch to the links, for one state of the link table. */
module Pump {
  import opened Bytes

  type Link = nat

  // A link, as the i-th drawn from its bearer's counter. It registers a send function of its own.
  datatype SendFn = Tcp(i: nat) | Wss(j: nat)

  /** The packets of a batch that are addressed to one link. */
  function ForLink(outgoing: seq<(Link, Octets)>, link: Link): seq<Octets> {
    if outgoing == [] then []
    else (if outgoing[0].0 == link then [outgoing[0].1] else []) + ForLink(outgoing[1..], link)
  }

  /** What one send function is given, out of everything sent. */
  function GivenTo(sent: seq<(SendFn, Octets)>, fn: SendFn): seq<Octets> {
    if sent == [] then []
    else (if sent[0].0 == fn then [sent[0].1] else []) + GivenTo(sent[1..], fn)
  }

  /** The calls a batch makes: packets for links that are not registered are dropped. */
  function Calls(links: map<Link, SendFn>, outgoing: seq<(Link, Octets)>): seq<(SendFn, Octets)> {
    if outgoing == [] then []
    else
      (if outgoing[0].0 in links then [(links[outgoing[0].0], outgoing[0].1)] else [])
      + Calls(links, outgoing[1..])
  }

  lemma {:induction false} CallsAppend(links: map<Link, SendFn>, outgoing: seq<(Link, Octets)>, next: (Link, Octets))
    ensures Calls(links, outgoing + [next])
            == Calls(links, outgoing) + if next.0 in links then [(links[next.0], next.1)] else []
  {
    if outgoing != [] {
      assert (outgoing + [next])[1..] == outgoing[1..] + [next];
      CallsAppend(links, outgoing[1..], next);
    }
  }

  /** Each link has a send function of its own. */
  predicate OwnFunctions(links: map<Link, SendFn>) {
    forall a, b :: a in links && b in links && a != b ==> links[a] != links[b]
  }

  /** A registered link's send function is given exactly the packets for that link, in order. */
  lemma {:induction false} EachLinkItsOwn(links: map<Link, SendFn>, outgoing: seq<(Link, Octets)>, link: Link)
    requires OwnFunctions(links) && link in links
    ensures GivenTo(Calls(links, outgoing), links[link]) == ForLink(outgoing, link)
  {
    if outgoing != [] {
      var rest := outgoing[1..];
      EachLinkItsOwn(links, rest, link);
      if outgoing[0].0 in links {
        assert Calls(links, outgoing)[1..] == Calls(links, rest);
      } else {
        assert Calls(links, outgoing) == Calls(links, rest);
      }
    }
  }

  /** Sends a batch. `Raises` says which sends raise: the first that does ends the batch. */
  method Route(links: map<Link, SendFn>, outgoing: seq<(Link, Octets)>, Raises: (SendFn, Octets) -> bool)
    returns (sent: seq<(SendFn, Octets)>, done: nat)
    ensures done <= |outgoing| && sent == Calls(links, outgoing[..done])
    ensures done < |outgoing| ==>
              outgoing[done].0 in links && Raises(links[outgoing[done].0], outgoing[done].1)
    ensures forall call <- sent :: !Raises(call.0, call.1)
  {
    sent, done := [], 0;
    while done < |outgoing|
      invariant done <= |outgoing| && sent == Calls(links, outgoing[..done])
      invariant forall call <- sent :: !Raises(call.0, call.1)
    {
      var (link, data) := outgoing[done];
      assert outgoing[..done + 1] == outgoing[..done] + [outgoing[done]];
      CallsAppend(links, outgoing[..done], outgoing[done]);
      if link in links {
        if Raises(links[link], data) {
          return;
        }
        sent := sent + [(links[link], data)];
      }
      done := done + 1;
    }
    assert outgoing[..|outgoing|] == outgoing;
  }
}
