/** The client adapter a sentinel node talks through: a small state holder
    with an endpoint (address and port) and a connected flag.

    The endpoint setters store their argument without any validation; the
    node is the one that validates. Opening the connection belongs to a
    concrete backend whose socket code is not part of this model, so
    `Connect` takes the network's answer as a parameter: an accepted
    connection sets the flag, a refused one raises a connection error and
    leaves the adapter exactly as it was.
 */
module ClientAdapter {
  import opened Results

  /** Which concrete implementation stands behind the adapter: the default
      Predis-backed one, or one supplied by the caller (a test double, say). */
  datatype Backend = Predis | Custom

  /** The adapter's state. `ipAddress` and `port` are `None` until their
      setters run (the fields start out null). */
  datatype Adapter = Adapter(
    backend: Backend,
    ipAddress: Option<string>,
    port: Option<int>,
    isConnected: bool)

  /** What the Redis server at the configured endpoint did when asked for a session. */
  datatype Reply = Accepted | Refused(reason: string)

  /** The exception a backend raises when it cannot establish a session. */
  datatype ConnectionError = ConnectionError(reason: string)

  /** A freshly created adapter: no endpoint yet, and not connected. */
  function Fresh(backend: Backend): (a: Adapter)
    ensures a.backend == backend
    ensures !a.isConnected
    ensures a.ipAddress.None? && a.port.None?
  {
    Adapter(backend, None, None, false)
  }

  /** Records the target host, as given; nothing else changes. */
  function SetIpAddress(a: Adapter, ipAddress: string): (r: Adapter)
    ensures r.ipAddress == Some(ipAddress)
    ensures r.port == a.port && r.isConnected == a.isConnected && r.backend == a.backend
  {
    a.(ipAddress := Some(ipAddress))
  }

  /** Records the target port, as given (no range check); nothing else changes. */
  function SetPort(a: Adapter, port: int): (r: Adapter)
    ensures r.port == Some(port)
    ensures r.ipAddress == a.ipAddress && r.isConnected == a.isConnected && r.backend == a.backend
  {
    a.(port := Some(port))
  }

  /** The last-known connection flag; reading it changes nothing. */
  function IsConnected(a: Adapter): (connected: bool)
    ensures connected <==> a.isConnected
  {
    a.isConnected
  }

  /** An adapter together with the status of the call that produced it. */
  datatype Step = Step(adapter: Adapter, status: Outcome<ConnectionError>)

  /** Asks the backend for a session. On `Accepted` the flag becomes true;
      on `Refused` the error is raised and the adapter is left unchanged.
      The endpoint is never touched. */
  function Connect(a: Adapter, reply: Reply): (r: Step)
    ensures r.status.Pass? <==> reply.Accepted?
    ensures reply.Accepted? ==> r.adapter.isConnected
    ensures reply.Refused? ==> r.adapter == a && r.status.error == ConnectionError(reply.reason)
    ensures r.adapter.ipAddress == a.ipAddress && r.adapter.port == a.port
    ensures r.adapter.backend == a.backend
  {
    match reply
    case Accepted => Step(a.(isConnected := true), Pass)
    case Refused(reason) => Step(a, Fail(ConnectionError(reason)))
  }

  /** A call a client of the adapter can make. */
  datatype Call =
    | CallSetIpAddress(ipAddress: string)
    | CallSetPort(port: int)
    | CallConnect(reply: Reply)
    | CallIsConnected

  /** What the caller sees from one call: a plain return, the flag it read,
      or the connection error it caught. */
  datatype Observation = Returned | Answered(connected: bool) | Raised(error: ConnectionError)

  /** Performs one call. */
  function Perform(a: Adapter, c: Call): (r: (Adapter, Observation))
    ensures c.CallIsConnected? ==> r == (a, Answered(a.isConnected))
    ensures !c.CallConnect? ==> r.0.isConnected == a.isConnected
    ensures a.isConnected ==> r.0.isConnected
    ensures r.0.backend == a.backend
  {
    match c
    case CallSetIpAddress(x) => (SetIpAddress(a, x), Returned)
    case CallSetPort(p) => (SetPort(a, p), Returned)
    case CallConnect(reply) =>
      var s := Connect(a, reply);
      (s.adapter, if s.status.Pass? then Returned else Raised(s.status.error))
    case CallIsConnected => (a, Answered(IsConnected(a)))
  }

  /** Performs a sequence of calls in order, collecting one observation per call. */
  function Run(a: Adapter, calls: seq<Call>): (r: (Adapter, seq<Observation>))
    ensures |r.1| == |calls|
    ensures r.0.backend == a.backend
    decreases |calls|
  {
    if |calls| == 0 then (a, [])
    else
      var (a', o) := Perform(a, calls[0]);
      var (last, os) := Run(a', calls[1..]);
      (last, [o] + os)
  }

  /** The two setters touch disjoint fields, so their order does not matter. */
  lemma SettersCommute(a: Adapter, ipAddress: string, port: int)
    ensures SetPort(SetIpAddress(a, ipAddress), port) == SetIpAddress(SetPort(a, port), ipAddress)
  {
  }

  /** Only the latest value given to a setter is kept. */
  lemma SettersOverwrite(a: Adapter, x: string, y: string, p: int, q: int)
    ensures SetIpAddress(SetIpAddress(a, x), y) == SetIpAddress(a, y)
    ensures SetPort(SetPort(a, p), q) == SetPort(a, q)
  {
  }

  /** Reading the flag any number of times changes nothing, and every read
      returns the same value. */
  lemma {:induction false} QueriesArePure(a: Adapter, calls: seq<Call>)
    requires forall i :: 0 <= i < |calls| ==> calls[i] == CallIsConnected
    ensures Run(a, calls).0 == a
    ensures forall i :: 0 <= i < |calls| ==> Run(a, calls).1[i] == Answered(a.isConnected)
    decreases |calls|
  {
    if |calls| > 0 {
      QueriesArePure(a, calls[1..]);
    }
  }

  /** Without a connect call the connected flag keeps its value, whatever
      the setters store: every read along the way, and the final state,
      report the flag the adapter started with. */
  lemma {:induction false} FlagNeedsConnect(a: Adapter, calls: seq<Call>)
    requires forall i :: 0 <= i < |calls| ==> !calls[i].CallConnect?
    ensures Run(a, calls).0.isConnected == a.isConnected
    ensures forall i :: 0 <= i < |calls| && calls[i].CallIsConnected? ==>
      Run(a, calls).1[i] == Answered(a.isConnected)
    decreases |calls|
  {
    if |calls| > 0 {
      var (a', _) := Perform(a, calls[0]);
      FlagNeedsConnect(a', calls[1..]);
      forall i | 1 <= i < |calls|
        ensures Run(a, calls).1[i] == Run(a', calls[1..]).1[i - 1]
      {
      }
    }
  }

  /** Only an accepted connect sets the flag: an adapter that is not
      connected, a fresh one in particular, stays not connected through any
      call sequence in which no connect is accepted. */
  lemma {:induction false} OnlyAcceptedConnectConnects(a: Adapter, calls: seq<Call>)
    requires !a.isConnected
    requires forall i :: 0 <= i < |calls| ==> calls[i] != CallConnect(Accepted)
    ensures !Run(a, calls).0.isConnected
    decreases |calls|
  {
    if |calls| > 0 {
      var (a', _) := Perform(a, calls[0]);
      assert !a'.isConnected by {
        match calls[0]
        case CallConnect(reply) =>
          assert reply != Accepted;
        case _ =>
      }
      OnlyAcceptedConnectConnects(a', calls[1..]);
    }
  }

  /** No call ever clears the flag: a failed connect leaves it as it was,
      and nothing else writes it. */
  lemma {:induction false} ConnectedIsSticky(a: Adapter, calls: seq<Call>)
    requires a.isConnected
    ensures Run(a, calls).0.isConnected
    decreases |calls|
  {
    if |calls| > 0 {
      var (a', _) := Perform(a, calls[0]);
      ConnectedIsSticky(a', calls[1..]);
    }
  }

  /** Connect and the flag read never move the endpoint: without setter
      calls the adapter ends with the endpoint it started with. */
  lemma {:induction false} EndpointNeedsSetters(a: Adapter, calls: seq<Call>)
    requires forall i :: 0 <= i < |calls| ==> calls[i].CallConnect? || calls[i].CallIsConnected?
    ensures Run(a, calls).0.ipAddress == a.ipAddress
    ensures Run(a, calls).0.port == a.port
    decreases |calls|
  {
    if |calls| > 0 {
      var (a', _) := Perform(a, calls[0]);
      EndpointNeedsSetters(a', calls[1..]);
    }
  }
}
