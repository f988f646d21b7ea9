# PSRedis sentinel node, modelled in Dafny

This project models the per-node primitive of the PSRedis Redis Sentinel
client. A `SentinelNode` is one sentinel server, identified by an IP address
and a service port. It is reached through a client adapter.

- Construction runs two guards in a fixed order: IP format first, then the
  port range [0, 65535]. Either guard can raise `InvalidProperty` before
  anything is stored.
- Only after both guards pass does construction store the endpoint. It then
  takes the supplied adapter, or a fresh default Predis-backed one, and
  pushes the endpoint into it with `setIpAddress` and `setPort`.
- `connect()` and `isConnected()` forward to that adapter.
- The adapter (`AbstractClientAdapter`) holds an address, a port and an
  `isConnected` flag. The flag starts out false. The setters store their
  argument without validation. The getter only reads.

Everything is modelled as values and pure functions:

- `results.dfy` (module `Results`): `Result`, `Option` and `Outcome`. They
  stand in for PHP exceptions and null.
- `client_adapter.dfy` (module `ClientAdapter`): the adapter record. It has
  its setters, its flag getter and an abstract `Connect` transition. It also
  has `Run`, which interprets any sequence of adapter calls, and lemmas about
  such sequences.
- `sentinel_node.dfy` (module `SentinelNode`): construction as a function
  returning `Result<Node, InvalidProperty>`. It also holds the getters, the
  forwarding `Connect` and `IsConnected`, and `Run`, which interprets any
  sequence of calls a client can make on a node. Lemmas show that a node
  stays valid for its lifetime.

Two collaborators are not part of this model and become parameters:

- Whether a string is an IP address is decided by Symfony's `Ip` constraint.
  That library is not part of this model. Construction therefore takes the
  rule as a parameter `ipIsValid: string -> bool`, and no IP grammar is
  assumed.
- What the network does when a backend connects is a `Reply` parameter,
  either `Accepted` or `Refused(reason)`.
  - An accepted connection sets the flag.
  - A refused one raises `ConnectionError` and leaves the adapter exactly as
    it was.
  - Neither outcome touches the endpoint.

The port range, by contrast, is an explicit inclusive integer check, as in
the source.

Three points worth stating plainly:

- The model assumes that a refused connect leaves the flag as it was. The
  backend's `connect` is not in the source:
  lib/RedisSentinel/SentinelNode.php:102 only calls it. Under that
  assumption, an adapter that was connected stays connected, and one that
  was not stays not connected.
- Whether `"::1"` or `""` is an IP address is decided by Symfony's `Ip`
  constraint (lib/RedisSentinel/SentinelNode.php:80-81). Here it is decided
  by the `ipIsValid` parameter.
- A supplied adapter keeps its `isConnected` flag through construction.
  The constructor never resets it.

## Model

| member | source | states |
|---|---|---|
| `ClientAdapter.Fresh` | lib/PSRedis/Client/Adapter/AbstractClientAdapter.php:7-11 | a new adapter has no endpoint yet and reports not connected |
| `ClientAdapter.SetIpAddress` | lib/PSRedis/Client/Adapter/AbstractClientAdapter.php:13-16 | stores any string as the address, unvalidated; port, flag and backend are unchanged |
| `ClientAdapter.SetPort` | lib/PSRedis/Client/Adapter/AbstractClientAdapter.php:18-21 | stores any integer as the port, with no range check; address, flag and backend are unchanged |
| `ClientAdapter.IsConnected` | lib/PSRedis/Client/Adapter/AbstractClientAdapter.php:23-26 | returns the stored flag |
| `ClientAdapter.Connect` | lib/RedisSentinel/SentinelNode.php:100-103 | succeeds exactly when the server accepts, and then the flag is true; a refusal raises the connection error carrying the reason and leaves the adapter unchanged; the endpoint is never touched |
| `ClientAdapter.SettersCommute` | lib/PSRedis/Client/Adapter/AbstractClientAdapter.php:13-21 | setting address then port gives the same adapter as setting port then address |
| `ClientAdapter.SettersOverwrite` | lib/PSRedis/Client/Adapter/AbstractClientAdapter.php:13-21 | a second call to a setter replaces the first value entirely |
| `ClientAdapter.QueriesArePure` | lib/PSRedis/Client/Adapter/AbstractClientAdapter.php:23-26 | any number of flag reads leave the adapter unchanged and all return the same value |
| `ClientAdapter.FlagNeedsConnect` | lib/PSRedis/Client/Adapter/AbstractClientAdapter.php:11-26 | over any call sequence without a connect, setter calls included, every flag read and the final flag equal the initial flag |
| `ClientAdapter.OnlyAcceptedConnectConnects` | lib/PSRedis/Client/Adapter/AbstractClientAdapter.php:11-26 | an adapter that is not connected, a fresh one included, stays not connected through any call sequence in which no connect is accepted (given the assumed connect step) |
| `ClientAdapter.ConnectedIsSticky` | lib/RedisSentinel/SentinelNode.php:100-108 | no call sequence turns a true flag back to false: the setters and the getter never write the flag (AbstractClientAdapter.php:13-26), and under the assumed connect step a connect only ever sets it |
| `ClientAdapter.EndpointNeedsSetters` | lib/PSRedis/Client/Adapter/AbstractClientAdapter.php:13-26 | call sequences of connects and flag reads leave address and port as they were |
| `SentinelNode.MessageTellsKind` | lib/RedisSentinel/SentinelNode.php:78-98 | two errors carry the same message exactly when they are the same kind, so the message tells the IP error from the port error |
| `SentinelNode.GuardIpAddress` | lib/RedisSentinel/SentinelNode.php:78-85 | passes exactly when the IP rule accepts the address, otherwise raises the IP-address error |
| `SentinelNode.GuardServicePort` | lib/RedisSentinel/SentinelNode.php:91-98 | passes exactly when 0 <= port <= 65535, otherwise raises the service-port error |
| `SentinelNode.InitializeAdapter` | lib/RedisSentinel/SentinelNode.php:49-55 | the adapter ends up holding exactly the given address and port, with backend and flag kept |
| `SentinelNode.InitializeIsTwoSetterCalls` | lib/RedisSentinel/SentinelNode.php:49-55 | the initialized adapter equals the one that running `setIpAddress` and then `setPort` on it produces |
| `SentinelNode.New` | lib/RedisSentinel/SentinelNode.php:35-47 | succeeds exactly on an IP-valid address with an in-range port; an invalid address gives the IP error whatever the port; a valid address with an out-of-range port gives the port error; a node stores the inputs, and its adapter holds that endpoint; the default adapter is Predis and not connected; a supplied adapter keeps its backend and flag |
| `SentinelNode.GettersAfterNew` | lib/RedisSentinel/SentinelNode.php:40-71 | after a successful construction the getters return the input address and port |
| `SentinelNode.GetIpAddress` | lib/RedisSentinel/SentinelNode.php:60-63 | on a configured node, the returned address is the one its adapter holds |
| `SentinelNode.GetPort` | lib/RedisSentinel/SentinelNode.php:68-71 | on a configured node, the returned port is the one its adapter holds |
| `SentinelNode.Connect` | lib/RedisSentinel/SentinelNode.php:100-103 | the node's address and port do not change, and neither do its adapter's endpoint and backend; success happens exactly when the server accepts; a refusal propagates the adapter's error unchanged and leaves the node as it was |
| `SentinelNode.IsConnected` | lib/RedisSentinel/SentinelNode.php:105-108 | equals the adapter's flag |
| `SentinelNode.ValidForLifetime` | lib/RedisSentinel/SentinelNode.php:35-108 | after any sequence of calls on the node, a valid node keeps its address and port, and its adapter keeps that endpoint |
| `SentinelNode.GettersReportInputs` | lib/RedisSentinel/SentinelNode.php:60-71 | every getter call in any call sequence reports the node's original address or port |
| `SentinelNode.IsConnectedIsPure` | lib/RedisSentinel/SentinelNode.php:105-108 | any number of `isConnected` calls leave the node unchanged and all return the adapter's flag |
| `SentinelNode.FailureIgnoresAdapter` | lib/RedisSentinel/SentinelNode.php:35-38 | a failed construction fails the same way whichever adapter is offered |
| `SentinelNode.PortBoundaries` | lib/RedisSentinel/SentinelNode.php:94 | with a valid address, ports 0 and 65535 are accepted, and -1 and 65536 give the port error |
| `SentinelNode.ConnectThroughDefaultAdapter` | lib/RedisSentinel/SentinelNode.php:35-108 | a node with the default adapter starts not connected; an accepted connect makes it connected; a refused one raises and leaves it not connected; the getters are unaffected |

## Left out

- The internals of Symfony's `Ip` and `Range` constraints: that library is not part of this model. IP validity is the `ipIsValid` parameter. The range is modelled as the plain integer check it configures.
- PHP's handling of null, string or other non-integer ports: ports are `int`.
- The concrete Predis adapter and its socket I/O: that code is not part of this model. `ClientAdapter.Connect` is an abstract success-or-failure step driven by a `Reply`. Blocking and timeouts are not modelled.
- ClientAdapter.Connect: its behaviour is an assumption, not something taken from the source, because no adapter `connect` is defined in the modelled files. The assumption is that an accepted connect sets the flag, a refused one leaves the adapter as it was, and neither touches the endpoint. `ClientAdapter.ConnectedIsSticky`, `ClientAdapter.OnlyAcceptedConnectConnects` and the connect clauses of the node lemmas rest on it.
- Exception message text is kept only as the two messages that tell the IP error from the port error. Exception classes and stack behaviour are not modelled.
- The named, adapter-less node variant, sentinel sets, master discovery, failover and logging: none of them appear in the modelled files.
- The two namespaces under which the adapter appears, `RedisSentinel\RedisClient\Adapter` and `PSRedis\Client\Adapter`, are treated as one adapter capability.
- SentinelNode.InitializeIsTwoSetterCalls: states only that the resulting adapter state is the one the two setter calls produce. Adapters are values without a call log, so the model cannot see the order of the calls or how many there were. The same state also results from the reverse order, or from a repeated call.
- Object identity and sharing are not modelled: adapters are values, so a node's adapter cannot be shared with another node.
- SentinelNode.ValidForLifetime: holds only because adapters are values here. In the source, the constructor stores the caller's adapter object itself (lib/RedisSentinel/SentinelNode.php:35, 46). Whoever supplied that object can still reconfigure it. For example, passing the same adapter to `new SentinelNode('10.0.0.1', 26379, $a)` and then to `new SentinelNode('10.0.0.2', 1, $a)` re-points the first node's adapter through lines 51-52. The first node then dials 10.0.0.2:1 while `getPort()` still returns 26379. The lemma covers only calls made on the node itself.
