/** The relay client: the handlers that keep one virtual connection per peer, and the way out to the relay. */
module RelayClient {
  import opened Frames
  import Tunnel
  import RelayHub
  import RelayView

  /** A DATA message as it travels from a client to the server. */
  datatype Outgoing = Outgoing(to: string, msgType: Byte, payload: seq<Byte>)

  class Client {
    const peerId: string
    var connected: bool
    var sent: seq<Outgoing>
    var peers: map<string, Tunnel.VirtualConn>

    constructor (peerId: string)
      ensures this.peerId == peerId && connected && sent == [] && peers == map[] && Valid()
    {
      this.peerId := peerId;
      connected, sent, peers := true, [], map[];
    }

    /** No two peers share a virtual connection. */
    ghost predicate Valid()
      reads this
    {
      forall p, q :: p in peers && q in peers && p != q ==> peers[p] != peers[q]
    }

    /** A join always gives the peer a new connection and closes the one it had. */
    method HandlePeerJoin(info: RelayHub.Info) returns (attached: Tunnel.VirtualConn?)
      requires Valid()
      modifies this, set p | p in peers :: peers[p]
      ensures Valid() && connected == old(connected) && sent == old(sent)
      ensures peers.Keys == RelayView.Handle(peerId, old(peers.Keys), RelayHub.Join(info))
      ensures attached == null <==> info.peerId == peerId
      ensures attached == null ==> peers == old(peers)
      ensures attached != null ==>
                fresh(attached) && attached.State() == Tunnel.FRESH_CONN && peers == old(peers)[info.peerId := attached]
      ensures forall p :: p in old(peers) ==>
                var vc := old(peers)[p];
                vc.State() == if attached != null && p == info.peerId then Tunnel.Shut(old(vc.State())) else old(vc.State())
    {
      if info.peerId == peerId {
        return null;
      }
      if info.peerId in peers {
        peers[info.peerId].Close();
        peers := peers - {info.peerId};
      }
      attached := new Tunnel.VirtualConn();
      peers := peers[info.peerId := attached];
    }

    method HandlePeerLeave(peer: string)
      requires Valid()
      modifies this, set p | p in peers :: peers[p]
      ensures Valid() && connected == old(connected) && sent == old(sent)
      ensures peers.Keys == RelayView.Handle(peerId, old(peers.Keys), RelayHub.Leave(peer))
      ensures peers == old(peers) - {peer}
      ensures forall p :: p in old(peers) ==>
                var vc := old(peers)[p];
                vc.State() == if p == peer then Tunnel.Shut(old(vc.State())) else old(vc.State())
    {
      if peer in peers {
        peers[peer].Close();
        peers := peers - {peer};
      }
    }

    /** Data goes to its sender's connection, which is created if the sender is unknown. An empty sender
        stands for the old message form, where the peer is named in `to`. On a full queue of an open connection
        the real call blocks. */
    method HandleData(from: string, to: string, msgType: Byte, payload: seq<Byte>, pick: bool) returns (vc: Tunnel.VirtualConn?)
      requires Valid()
      modifies this, set p | p in peers :: peers[p]
      ensures Valid() && connected == old(connected) && sent == old(sent)
      ensures var sender := if from == "" then to else from;
              && peers.Keys == RelayView.Handle(peerId, old(peers.Keys), RelayHub.Deliver(sender, msgType, payload))
              && (vc == null <==> sender !in old(peers) && (sender == "" || sender == peerId))
              && (vc == null ==> peers == old(peers))
              && (sender in old(peers) ==>
                    && vc == old(peers)[sender] && peers == old(peers)
                    && vc.State() == if |old(vc.incoming)| < Tunnel.QUEUE_CAP && (old(vc.closed) ==> pick)
                                     then Tunnel.Push(old(vc.State()), Encode(Frame(msgType, payload)))
                                     else old(vc.State()))
              && (vc != null && sender !in old(peers) ==>
                    && fresh(vc) && peers == old(peers)[sender := vc]
                    && vc.State() == Tunnel.Push(Tunnel.FRESH_CONN, Encode(Frame(msgType, payload))))
              && (forall p :: p in old(peers) && p != sender ==> old(peers)[p].State() == old(peers[p].State()))
    {
      var sender := if from == "" then to else from;
      if sender !in peers {
        if sender == "" || sender == peerId {
          return null;
        }
        vc := new Tunnel.VirtualConn();
        peers := peers[sender := vc];
        var _ := vc.Deliver(msgType, payload, pick);
        return vc;
      }
      vc := peers[sender];
      var _ := vc.Deliver(msgType, payload, pick);
    }

    /** `virtualConn.Write`: one call carries one sync frame, whose length is left behind. */
    method Write(peer: string, b: seq<Byte>) returns (ok: bool)
      modifies this`sent
      ensures ok <==> |b| >= 5 && connected
      ensures sent == if ok then old(sent) + [Outgoing(peer, b[4], b[5..])] else old(sent)
    {
      if |b| < 5 || !connected {
        return false;
      }
      sent := sent + [Outgoing(peer, b[4], b[5..])];
      return true;
    }

    method CloseAll()
      requires Valid()
      modifies this, set p | p in peers :: peers[p]
      ensures Valid() && peers == map[] && !connected && sent == old(sent)
      ensures forall p :: p in old(peers) ==> old(peers)[p].State() == Tunnel.Shut(old(peers[p].State()))
    {
      var todo := peers.Keys;
      while todo != {}
        invariant peers == old(peers) && sent == old(sent) && todo <= peers.Keys
        invariant forall p :: p in peers ==>
                    peers[p].State() == if p in todo then old(peers[p].State()) else Tunnel.Shut(old(peers[p].State()))
      {
        var p :| p in todo;
        peers[p].Close();
        todo := todo - {p};
      }
      peers := map[];
      connected := false;
    }
  }
}
