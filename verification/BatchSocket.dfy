/** The send batch (`UdpSendBatch` in src/batch_socket.rs) and the socket it drains into. */
module BatchSocket {
  import opened Base

  const MAX_BATCH_SIZE: nat := 64

  datatype Datagram = Datagram(payload: seq<byte>, to: nat)

  /** How one `sendmmsg` call ended: a prefix left (possibly nothing), or an error. */
  datatype SendResult = Sent(bytes: nat, packets: nat) | Failed

  function Zip(packets: seq<seq<byte>>, addresses: seq<nat>): seq<Datagram>
    requires |packets| == |addresses|
  {
    seq(|packets|, i requires 0 <= i < |packets| => Datagram(packets[i], addresses[i]))
  }

  function Bytes(datagrams: seq<Datagram>): nat {
    if datagrams == [] then 0
    else Bytes(datagrams[..|datagrams| - 1]) + |datagrams[|datagrams| - 1].payload|
  }

  lemma {:induction false} BytesConcat(a: seq<Datagram>, b: seq<Datagram>)
    ensures Bytes(a + b) == Bytes(a) + Bytes(b)
  {
    if b == [] {
      assert a + b == a;
    } else {
      assert (a + b)[..|a + b| - 1] == a + b[..|b| - 1];
      BytesConcat(a, b[..|b| - 1]);
    }
  }

  lemma ZipDrops(packets: seq<seq<byte>>, addresses: seq<nat>, n: nat)
    requires |packets| == |addresses| && n <= |packets|
    ensures Zip(packets[n..], addresses[n..]) == Zip(packets, addresses)[n..]
  {
  }

  class Socket {
    const peer: nat
    /** Everything that has left the host, oldest first. */
    var wire: seq<Datagram>
    /** How often the kernel was asked to send. */
    var calls: nat

    constructor (peer: nat)
      ensures this.peer == peer && wire == [] && calls == 0
    {
      this.peer := peer;
      wire, calls := [], 0;
    }
  }

  class UdpSendBatch {
    var packets: seq<seq<byte>>
    var addresses: seq<nat>

    predicate Valid()
      reads this
    {
      |packets| == |addresses| <= MAX_BATCH_SIZE
    }

    function Contents(): seq<Datagram>
      requires Valid()
      reads this
    {
      Zip(packets, addresses)
    }

    constructor ()
      ensures Valid() && Contents() == []
    {
      packets, addresses := [], [];
    }

    predicate IsFull()
      reads this
    {
      |packets| >= MAX_BATCH_SIZE
    }

    method Add(packet: seq<byte>, address: nat) returns (added: bool)
      requires Valid()
      modifies this
      ensures Valid() && added == (|old(Contents())| < MAX_BATCH_SIZE)
      ensures Contents() == old(Contents()) + if added then [Datagram(packet, address)] else []
    {
      if |packets| >= MAX_BATCH_SIZE {
        return false;
      }
      packets := packets + [packet];
      addresses := addresses + [address];
      added := true;
    }

    method Clear()
      modifies this
      ensures Valid() && Contents() == []
    {
      packets, addresses := [], [];
    }

    /** Hands the batch to the kernel, which accepts any prefix of it or fails outright; what was accepted
        is drained from the front of both vectors. */
    method Send(socket: Socket) returns (r: SendResult)
      requires Valid()
      modifies this, socket
      ensures Valid()
      ensures socket.calls == old(socket.calls) + if old(packets) == [] then 0 else 1
      ensures r.Failed? ==> Contents() == old(Contents()) && socket.wire == old(socket.wire)
      ensures r.Sent? ==>
        && r.packets <= |old(Contents())|
        && socket.wire == old(socket.wire) + old(Contents())[..r.packets]
        && Contents() == old(Contents())[r.packets..]
        && r.bytes == Bytes(old(Contents())[..r.packets])
    {
      if packets == [] {
        return Sent(0, 0);
      }
      socket.calls := socket.calls + 1;
      var failed: bool := *;
      if failed {
        return Failed;
      }
      var accepted: nat :| accepted <= |packets|;
      socket.wire := socket.wire + Zip(packets, addresses)[..accepted];
      var bytes := 0;
      for i := 0 to accepted
        invariant bytes == Bytes(Zip(packets, addresses)[..i])
        invariant packets == old(packets) && addresses == old(addresses)
      {
        var all := Zip(packets, addresses);
        assert all[..i + 1][..i] == all[..i];
        bytes := bytes + |packets[i]|;
      }
      ZipDrops(packets, addresses, accepted);
      assert packets[0..] == packets && addresses[0..] == addresses;
      if accepted > 0 {
        packets := packets[accepted..];
        addresses := addresses[accepted..];
      }
      r := Sent(bytes, accepted);
    }
  }
}
