/** One Redis Sentinel node: its network identity (IP address and port) and
    the client adapter through which it is reached.

    Construction validates the address first and the port second, and fails
    before anything is stored when either check fails, so every node that
    exists has a valid endpoint. Only then is the adapter chosen (the one
    supplied, or a fresh default one) and configured with the node's
    endpoint. `Connect` and `IsConnected` forward to that adapter.

    Whether a string is an IP address is decided by a validation library
    whose code is not part of this model; it is the parameter `ipIsValid`.
 */
module SentinelNode {
  import opened Results
  import ClientAdapter

  /** The IP-format rule the address is checked against. */
  type IpRule = string -> bool

  /** Lowest and highest service port a node accepts, both inclusive. */
  const MinPort: int := 0
  const MaxPort: int := 65535

  /** The exception construction raises, one kind per guard. */
  datatype InvalidProperty = InvalidIpAddress | InvalidServicePort

  /** The message each kind carries. */
  function Message(e: InvalidProperty): (m: string)
    ensures e.InvalidIpAddress? ==> m == "A sentinel node requires a valid IP address"
    ensures e.InvalidServicePort? ==> m == "A sentinel node requires a valid service port"
  {
    match e
    case InvalidIpAddress => "A sentinel node requires a valid IP address"
    case InvalidServicePort => "A sentinel node requires a valid service port"
  }

  /** The message alone tells which guard failed. */
  lemma MessageTellsKind(e1: InvalidProperty, e2: InvalidProperty)
    ensures Message(e1) == Message(e2) <==> e1 == e2
  {
  }

  datatype Node = Node(ipAddress: string, port: int, adapter: ClientAdapter.Adapter)

  /** The ports the range check lets through. */
  predicate PortInRange(port: int) {
    MinPort <= port <= MaxPort
  }

  /** The inputs construction accepts, stated independently of the guards. */
  predicate Acceptable(ipIsValid: IpRule, ipAddress: string, port: int) {
    ipIsValid(ipAddress) && PortInRange(port)
  }

  /** The adapter is configured with exactly the node's endpoint. */
  predicate Configured(n: Node) {
    && n.adapter.ipAddress == Some(n.ipAddress)
    && n.adapter.port == Some(n.port)
  }

  /** What every constructed node satisfies: a valid endpoint, pushed into its adapter. */
  predicate Valid(ipIsValid: IpRule, n: Node) {
    Acceptable(ipIsValid, n.ipAddress, n.port) && Configured(n)
  }

  /** The first guard: the address must satisfy the IP-format rule. */
  function GuardIpAddress(ipIsValid: IpRule, ipAddress: string): (r: Outcome<InvalidProperty>)
    ensures r.Pass? <==> ipIsValid(ipAddress)
    ensures r.Fail? ==> r.error == InvalidIpAddress
  {
    Need(ipIsValid(ipAddress), InvalidIpAddress)
  }

  /** The second guard: the port must lie in the inclusive range 0..65535. */
  function GuardServicePort(port: int): (r: Outcome<InvalidProperty>)
    ensures r.Pass? <==> 0 <= port <= 65535
    ensures r.Fail? ==> r.error == InvalidServicePort
  {
    Need(MinPort <= port <= MaxPort, InvalidServicePort)
  }

  /** Pushes the node's endpoint into the adapter, address first, then port.
      The adapter's backend and connected flag are kept. */
  function InitializeAdapter(a: ClientAdapter.Adapter, ipAddress: string, port: int): (r: ClientAdapter.Adapter)
    ensures r.ipAddress == Some(ipAddress) && r.port == Some(port)
    ensures r.backend == a.backend && r.isConnected == a.isConnected
  {
    ClientAdapter.SetPort(ClientAdapter.SetIpAddress(a, ipAddress), port)
  }

  /** Constructs a node from an address, a port and, optionally, an adapter
      (`None` selects a fresh Predis-backed one). The address guard runs
      before the port guard, so when both inputs are bad the address error
      is the one raised. */
  function New(ipIsValid: IpRule, ipAddress: string, port: int,
               supplied: Option<ClientAdapter.Adapter>): (r: Result<Node, InvalidProperty>)
    ensures r.Success? <==> Acceptable(ipIsValid, ipAddress, port)
    ensures !ipIsValid(ipAddress) ==> r == Failure(InvalidIpAddress)
    ensures ipIsValid(ipAddress) && !(0 <= port <= 65535) ==> r == Failure(InvalidServicePort)
    ensures r.Success? ==> r.value.ipAddress == ipAddress && r.value.port == port
    ensures r.Success? ==> Valid(ipIsValid, r.value)
    ensures r.Success? && supplied.None? ==>
      r.value.adapter.backend == ClientAdapter.Predis && !r.value.adapter.isConnected
    ensures r.Success? && supplied.Some? ==>
      r.value.adapter.backend == supplied.value.backend
      && r.value.adapter.isConnected == supplied.value.isConnected
  {
    match GuardIpAddress(ipIsValid, ipAddress)
    case Fail(e) => Failure(e)
    case Pass =>
      match GuardServicePort(port)
      case Fail(e) => Failure(e)
      case Pass =>
        var uninitialized := if supplied.None? then ClientAdapter.Fresh(ClientAdapter.Predis) else supplied.value;
        Success(Node(ipAddress, port, InitializeAdapter(uninitialized, ipAddress, port)))
  }

  /** The stored address; the node is not changed by reading it. */
  function GetIpAddress(n: Node): (ipAddress: string)
    ensures Configured(n) ==> n.adapter.ipAddress == Some(ipAddress)
  {
    n.ipAddress
  }

  /** The stored port; the node is not changed by reading it. */
  function GetPort(n: Node): (port: int)
    ensures Configured(n) ==> n.adapter.port == Some(port)
  {
    n.port
  }

  /** The node together with the status of the call that produced it. */
  datatype Step = Step(node: Node, status: Outcome<ClientAdapter.ConnectionError>)

  /** Forwards to the adapter's connect, once: the adapter's error reaches
      the caller unchanged and the node's own endpoint stays as it was. */
  function Connect(n: Node, reply: ClientAdapter.Reply): (r: Step)
    ensures r.node.ipAddress == n.ipAddress && r.node.port == n.port
    ensures r.node.adapter.ipAddress == n.adapter.ipAddress && r.node.adapter.port == n.adapter.port
    ensures r.node.adapter.backend == n.adapter.backend
    ensures Configured(n) ==> Configured(r.node)
    ensures r.status.Pass? <==> reply.Accepted?
    ensures reply.Accepted? ==> r.node.adapter.isConnected
    ensures reply.Refused? ==>
      r.node == n && r.status == Fail(ClientAdapter.ConnectionError(reply.reason))
  {
    var s := ClientAdapter.Connect(n.adapter, reply);
    Step(n.(adapter := s.adapter), s.status)
  }

  /** Forwards to the adapter's flag. */
  function IsConnected(n: Node): (connected: bool)
    ensures connected <==> n.adapter.isConnected
  {
    ClientAdapter.IsConnected(n.adapter)
  }

  /** A call a client of a constructed node can make. None of the node's
      own operations changes its address or port, or hands out its adapter. */
  datatype Call = CallGetIpAddress | CallGetPort | CallConnect(reply: ClientAdapter.Reply) | CallIsConnected

  /** What the caller sees from one call: a getter's value, or whatever the
      adapter call that the node forwarded to produced. */
  datatype Observation =
    | GotIpAddress(ipAddress: string)
    | GotPort(port: int)
    | Forwarded(o: ClientAdapter.Observation)

  function Perform(n: Node, c: Call): (r: (Node, Observation))
    ensures r.0.ipAddress == n.ipAddress && r.0.port == n.port
    ensures Configured(n) ==> Configured(r.0)
    ensures !c.CallConnect? ==> r.0 == n
  {
    match c
    case CallGetIpAddress => (n, GotIpAddress(GetIpAddress(n)))
    case CallGetPort => (n, GotPort(GetPort(n)))
    case CallConnect(reply) =>
      var s := Connect(n, reply);
      (s.node, Forwarded(if s.status.Pass? then ClientAdapter.Returned else ClientAdapter.Raised(s.status.error)))
    case CallIsConnected => (n, Forwarded(ClientAdapter.Answered(IsConnected(n))))
  }

  /** Performs a sequence of calls on a node, one observation per call. */
  function Run(n: Node, calls: seq<Call>): (r: (Node, seq<Observation>))
    ensures |r.1| == |calls|
    decreases |calls|
  {
    if |calls| == 0 then (n, [])
    else
      var (n', o) := Perform(n, calls[0]);
      var (last, os) := Run(n', calls[1..]);
      (last, [o] + os)
  }

  /** A node stays valid for its whole lifetime: no sequence of calls on the
      node changes its address or port, or the endpoint its adapter was given. */
  lemma {:induction false} ValidForLifetime(ipIsValid: IpRule, n: Node, calls: seq<Call>)
    requires Valid(ipIsValid, n)
    ensures Run(n, calls).0.ipAddress == n.ipAddress
    ensures Run(n, calls).0.port == n.port
    ensures Valid(ipIsValid, Run(n, calls).0)
    decreases |calls|
  {
    if |calls| > 0 {
      var (n', _) := Perform(n, calls[0]);
      ValidForLifetime(ipIsValid, n', calls[1..]);
    }
  }

  /** The getters always report the endpoint given at construction. */
  lemma {:induction false} GettersReportInputs(n: Node, calls: seq<Call>)
    ensures forall i :: 0 <= i < |calls| && calls[i].CallGetIpAddress? ==>
      Run(n, calls).1[i] == GotIpAddress(n.ipAddress)
    ensures forall i :: 0 <= i < |calls| && calls[i].CallGetPort? ==>
      Run(n, calls).1[i] == GotPort(n.port)
    decreases |calls|
  {
    if |calls| > 0 {
      var (n', _) := Perform(n, calls[0]);
      GettersReportInputs(n', calls[1..]);
      assert n'.ipAddress == n.ipAddress && n'.port == n.port;
      forall i | 1 <= i < |calls|
        ensures Run(n, calls).1[i] == Run(n', calls[1..]).1[i - 1]
      {
      }
    }
  }

  /** Reading the flag through the node any number of times changes nothing,
      and every read returns the adapter's flag. */
  lemma {:induction false} IsConnectedIsPure(n: Node, calls: seq<Call>)
    requires forall i :: 0 <= i < |calls| ==> calls[i] == CallIsConnected
    ensures Run(n, calls).0 == n
    ensures forall i :: 0 <= i < |calls| ==> Run(n, calls).1[i] == Forwarded(ClientAdapter.Answered(n.adapter.isConnected))
    decreases |calls|
  {
    if |calls| > 0 {
      IsConnectedIsPure(n, calls[1..]);
    }
  }

  /** Initializing the adapter leaves it in the state that the two setter
      calls, address first and then port, produce. */
  lemma InitializeIsTwoSetterCalls(a: ClientAdapter.Adapter, ipAddress: string, port: int)
    ensures InitializeAdapter(a, ipAddress, port)
      == ClientAdapter.Run(a, [ClientAdapter.CallSetIpAddress(ipAddress), ClientAdapter.CallSetPort(port)]).0
  {
    var calls := [ClientAdapter.CallSetIpAddress(ipAddress), ClientAdapter.CallSetPort(port)];
    var a1 := ClientAdapter.SetIpAddress(a, ipAddress);
    assert calls[1..] == [ClientAdapter.CallSetPort(port)];
    assert ClientAdapter.Run(a1, calls[1..]).0 == ClientAdapter.Run(ClientAdapter.SetPort(a1, port), []).0;
  }

  /** On success the getters return exactly the inputs. */
  lemma GettersAfterNew(ipIsValid: IpRule, ipAddress: string, port: int,
                        supplied: Option<ClientAdapter.Adapter>)
    requires New(ipIsValid, ipAddress, port, supplied).Success?
    ensures GetIpAddress(New(ipIsValid, ipAddress, port, supplied).value) == ipAddress
    ensures GetPort(New(ipIsValid, ipAddress, port, supplied).value) == port
  {
  }

  /** A failed construction depends only on the address and the port: which
      adapter was offered plays no part in it. */
  lemma FailureIgnoresAdapter(ipIsValid: IpRule, ipAddress: string, port: int,
                              s1: Option<ClientAdapter.Adapter>, s2: Option<ClientAdapter.Adapter>)
    requires New(ipIsValid, ipAddress, port, s1).Failure?
    ensures New(ipIsValid, ipAddress, port, s2) == New(ipIsValid, ipAddress, port, s1)
  {
  }

  /** The range is inclusive at both ends: 0 and 65535 are accepted, -1 and
      65536 are not. */
  lemma PortBoundaries(ipIsValid: IpRule, ipAddress: string, supplied: Option<ClientAdapter.Adapter>)
    requires ipIsValid(ipAddress)
    ensures New(ipIsValid, ipAddress, 0, supplied).Success?
    ensures New(ipIsValid, ipAddress, 65535, supplied).Success?
    ensures New(ipIsValid, ipAddress, -1, supplied) == Failure(InvalidServicePort)
    ensures New(ipIsValid, ipAddress, 65536, supplied) == Failure(InvalidServicePort)
  {
  }

  /** A node built with the default adapter, then asked to connect: when the
      server accepts, the node reports connected; when it refuses, the error
      reaches the caller and the node still reports not connected. */
  lemma ConnectThroughDefaultAdapter(ipIsValid: IpRule, ipAddress: string, port: int, reply: ClientAdapter.Reply)
    requires Acceptable(ipIsValid, ipAddress, port)
    ensures var n := New(ipIsValid, ipAddress, port, None).value;
            var s := Connect(n, reply);
            && !IsConnected(n)
            && (reply.Accepted? ==> s.status == Pass && IsConnected(s.node))
            && (reply.Refused? ==> s.status.Fail? && !IsConnected(s.node))
            && GetIpAddress(s.node) == ipAddress && GetPort(s.node) == port
  {
  }
}
