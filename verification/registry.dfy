/**
 * The listener registry `clients`: a map from each listener's HTTP response
 * to its record. A record's only state that matters is its own file read.
 */
module Registry {
  import opened Optional

  /** The identity of one HTTP response object; every request has its own. */
  type Res = nat

  /** An independent read of `file` that starts `start` bytes into it. */
  datatype ClientRead = ClientRead(file: string, start: nat)

  /** `clientInfo`: `currentStream`, null until `_streamForClient` opens a read. */
  datatype Client = Client(stream: Option<ClientRead>)

  type Clients = map<Res, Client>

  /** `clients.set(res, clientInfo)` with a fresh record that has no read yet. */
  function Register(cs: Clients, res: Res): (r: Clients)
    ensures r.Keys == cs.Keys + {res}
    ensures r[res] == Client(None)
    ensures forall k :: k in cs && k != res ==> r[k] == cs[k]
  {
    cs[res := Client(None)]
  }

  /** `clientInfo.currentStream = stream` on a registered record. */
  function Attach(cs: Clients, res: Res, read: ClientRead): (r: Clients)
    requires res in cs
    ensures r.Keys == cs.Keys
    ensures r[res].stream == Some(read)
    ensures forall k :: k in cs && k != res ==> r[k] == cs[k]
  {
    cs[res := Client(Some(read))]
  }

  /** `clients.delete(res)`: only that listener's entry goes. */
  function Drop(cs: Clients, res: Res): (r: Clients)
    ensures r.Keys == cs.Keys - {res}
    ensures forall k :: k in r ==> r[k] == cs[k]
  {
    cs - {res}
  }

  /** Deleting a listener twice is the same as deleting it once. */
  lemma DropIdempotent(cs: Clients, res: Res)
    ensures Drop(Drop(cs, res), res) == Drop(cs, res)
  {
  }

  /** Two listeners leaving have the same effect in either order. */
  lemma DropCommutes(cs: Clients, a: Res, b: Res)
    ensures Drop(Drop(cs, a), b) == Drop(Drop(cs, b), a)
  {
  }
}
