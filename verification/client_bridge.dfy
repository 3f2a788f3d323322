/**
 * The client bridge of the legacy TypeScript server
 * (`legacy-ts-server/src/clients/clientBridge.ts`): the sockets of the
 * connected clients in a JavaScript `Map` keyed by client id, and the ids
 * it hands out, `<instance>:<counter>`.
 *
 * A socket is an opaque number; sending on it is recorded as a delivery.
 * The instance number is a random draw below 999 and is a parameter; JSON
 * serialization of messages is not modelled (they arrive as text).
 */
module ClientBridge {
  import opened Common
  import opened JsMaps

  type Socket = nat

  datatype Bridge = Bridge(clients: seq<(string, Socket)>, nextId: nat, instanceId: string)

  /** One `socket.send(text)`. */
  datatype Delivery = Delivery(socket: Socket, text: string)

  /** `k` zero digits. */
  function Zeros(k: nat): (z: string)
    ensures |z| == k && forall i :: 0 <= i < k ==> z[i] == '0'
  {
    seq(k, _ => '0')
  }

  /** `s.padStart(3, "0")`: zeros in front up to length 3. */
  function PadStart3(s: string): (t: string)
    ensures |t| == if |s| >= 3 then |s| else 3
    ensures t == Zeros(|t| - |s|) + s
  {
    if |s| >= 3 then s else Zeros(3 - |s|) + s
  }

  /** A value below 1000 has at most three digits. */
  lemma ThreeDigits(n: nat)
    requires n < 1000
    ensures |NatToDecimal(n)| <= 3
  {
    if n >= 10 {
      assert |NatToDecimal(n)| == |NatToDecimal(n / 10)| + 1;
      if n / 10 >= 10 {
        assert |NatToDecimal(n / 10)| == |NatToDecimal(n / 100)| + 1;
      }
    }
  }

  /** The instance id: `randomInt(999)` rendered in three digits. */
  function InstanceId(draw: nat): (id: string)
    requires draw < 999
    ensures |id| == 3
    ensures forall i :: 0 <= i < |id| ==> '0' <= id[i] <= '9'
  {
    ThreeDigits(draw);
    PadStart3(NatToDecimal(draw))
  }

  /** Leading zeros do not change the value of a digit string. */
  lemma {:induction false} ZerosValue(k: nat, s: string)
    requires forall i :: 0 <= i < |s| ==> '0' <= s[i] <= '9'
    ensures DecimalValue(Zeros(k) + s) == DecimalValue(s)
    decreases k
  {
    if k > 0 {
      assert Zeros(k) + s == "0" + (Zeros(k - 1) + s);
      LeadingZero(Zeros(k - 1) + s);
      ZerosValue(k - 1, s);
    } else {
      assert Zeros(k) + s == s;
    }
  }

  /** The instance id reads back as the draw: distinct draws give distinct instance ids. */
  lemma InstanceIdRoundTrip(draw: nat)
    requires draw < 999
    ensures DecimalValue(InstanceId(draw)) == draw
  {
    var digits := NatToDecimal(draw);
    ThreeDigits(draw);
    ZerosValue(3 - |digits|, digits);
    DecimalRoundTrip(draw);
  }

  /** The id of the `n`-th client. */
  function ClientId(instanceId: string, n: nat): (id: string)
    ensures |id| > |instanceId| + 1 && id[..|instanceId| + 1] == instanceId + ":"
    ensures forall i :: |instanceId| + 1 <= i < |id| ==> '0' <= id[i] <= '9'
    ensures DecimalValue(id[|instanceId| + 1..]) == n
  {
    var digits := NatToDecimal(n);
    DecimalRoundTrip(n);
    var id := instanceId + ":" + digits;
    assert id[|instanceId| + 1..] == digits;
    id
  }

  /** Ids from different counter values differ. */
  lemma ClientIdsDiffer(instanceId: string, m: nat, n: nat)
    requires m != n
    ensures ClientId(instanceId, m) != ClientId(instanceId, n)
  {
  }

  /** The id was handed out before the counter reached its current value. */
  predicate IssuedBefore(id: string, b: Bridge)
  {
    exists n: nat :: n < b.nextId && id == ClientId(b.instanceId, n)
  }

  /** Every client id is distinct and was issued by this bridge. */
  predicate Valid(b: Bridge)
  {
    && DistinctKeys(b.clients)
    && forall i :: 0 <= i < |b.clients| ==> IssuedBefore(b.clients[i].0, b)
  }

  function NewBridge(draw: nat): (b: Bridge)
    requires draw < 999
    ensures Valid(b) && b.clients == [] && b.nextId == 0
  {
    Bridge([], 0, InstanceId(draw))
  }

  /** `size()`. */
  function Size(b: Bridge): (n: nat)
    ensures n == |b.clients|
  {
    |b.clients|
  }

  /** `addClient(socket)`: store the socket under the next id and return that id. */
  function AddClient(b: Bridge, socket: Socket): (res: (Bridge, string))
    ensures res.1 == ClientId(b.instanceId, b.nextId)
    ensures res.0.nextId == b.nextId + 1 && res.0.instanceId == b.instanceId
    ensures Keys(res.0.clients) == Keys(b.clients) + {res.1}
    ensures Get(res.0.clients, res.1) == Some(socket)
  {
    var id := ClientId(b.instanceId, b.nextId);
    GetAfterPut(b.clients, id, socket, id);
    (b.(clients := Put(b.clients, id, socket), nextId := b.nextId + 1), id)
  }

  /** A fresh id never collides: the socket is appended and the bridge stays valid. */
  lemma AddClientIsFresh(b: Bridge, socket: Socket)
    requires Valid(b)
    ensures var (b', id) := AddClient(b, socket);
      && id !in Keys(b.clients)
      && b'.clients == b.clients + [(id, socket)]
      && Size(b') == Size(b) + 1
      && Valid(b')
  {
    var id := ClientId(b.instanceId, b.nextId);
    var b' := AddClient(b, socket).0;
    PutKeepsDistinct(b.clients, id, socket);
    forall i | 0 <= i < |b'.clients| ensures IssuedBefore(b'.clients[i].0, b') {
      if i < |b.clients| {
        assert IssuedBefore(b.clients[i].0, b);
        var n: nat :| n < b.nextId && b.clients[i].0 == ClientId(b.instanceId, n);
        assert b'.clients[i] == b.clients[i];
      } else {
        assert b'.clients[i].0 == ClientId(b'.instanceId, b.nextId);
      }
    }
  }

  /** `removeClient(id)`: whether the client was present, and the bridge without it. */
  function RemoveClient(b: Bridge, id: string): (res: (Bridge, bool))
    ensures res.1 <==> id in Keys(b.clients)
    ensures Keys(res.0.clients) == Keys(b.clients) - {id}
    ensures res.0 == b.(clients := res.0.clients)
  {
    (b.(clients := Delete(b.clients, id)), id in Keys(b.clients))
  }

  lemma RemoveKeepsValid(b: Bridge, id: string)
    requires Valid(b)
    ensures Valid(RemoveClient(b, id).0)
  {
    var b' := RemoveClient(b, id).0;
    DeleteKeepsDistinct(b.clients, id);
    forall i | 0 <= i < |b'.clients| ensures IssuedBefore(b'.clients[i].0, b') {
      assert b'.clients[i] in b.clients;
      var j :| 0 <= j < |b.clients| && b.clients[j] == b'.clients[i];
      assert IssuedBefore(b.clients[j].0, b);
    }
  }

  /** A client added and then removed leaves only the advanced counter behind. */
  lemma AddThenRemove(b: Bridge, socket: Socket)
    requires Valid(b)
    ensures var (b', id) := AddClient(b, socket);
      RemoveClient(b', id) == (b.(nextId := b.nextId + 1), true)
  {
    var id := ClientId(b.instanceId, b.nextId);
    AddClientIsFresh(b, socket);
    DeleteAfterPut(b.clients, id, socket);
  }

  /** `send(message, clientId)`: an unknown client is a reference error. */
  function Send(b: Bridge, id: string, text: string): (r: Result<Delivery>)
    ensures r.Failure? <==> id !in Keys(b.clients)
    ensures r.Failure? ==> r.error == "Client " + id + " doesn't exist"
    ensures r.Success? ==> r.value.text == text && (id, r.value.socket) in b.clients
  {
    match Get(b.clients, id)
    case None => Failure("Client " + id + " doesn't exist")
    case Some(socket) => Success(Delivery(socket, text))
  }

  /** A message sent to a client just added reaches its socket; once removed, it fails. */
  lemma SendReachesAddedClient(b: Bridge, socket: Socket, text: string)
    ensures var (b', id) := AddClient(b, socket);
      && Send(b', id, text) == Success(Delivery(socket, text))
      && Send(RemoveClient(b', id).0, id, text).Failure?
  {
  }

  /**
   * `broadcast(message)`: the message goes to every socket, in insertion
   * order; in a valid bridge each delivery is what `send` to that client
   * would do.
   */
  method Broadcast(b: Bridge, text: string) returns (ds: seq<Delivery>)
    ensures |ds| == |b.clients|
    ensures forall i :: 0 <= i < |ds| ==> ds[i] == Delivery(b.clients[i].1, text)
    ensures Valid(b) ==> forall i :: 0 <= i < |ds| ==> Send(b, b.clients[i].0, text) == Success(ds[i])
  {
    var sockets := Values(b.clients);
    ds := [];
    for i := 0 to |sockets|
      invariant |ds| == i
      invariant forall j :: 0 <= j < i ==> ds[j] == Delivery(b.clients[j].1, text)
    {
      ds := ds + [Delivery(sockets[i], text)];
    }
    if Valid(b) {
      forall i | 0 <= i < |ds| ensures Send(b, b.clients[i].0, text) == Success(ds[i]) {
        GetDistinct(b.clients, i);
      }
    }
  }
}
