/** The spanning tree entity of `lib/stp.c`, as a state machine over values.

    A bridge holds an array of ports.  Each port records the best priority
    vector heard on its segment; the bridge derives its root, its root port and
    the state of every port from those records.  Each function below is named
    after the C function it specifies; a function that C writes as a loop over
    the enabled ports is a recursion over the port index, visiting the ports in
    the same order. */
module StpModel {
  const MAX_PORTS := 255
  const DEFAULT_BRIDGE_PRIORITY := 32768
  const DEFAULT_PORT_PRIORITY := 128
  const MESSAGE_AGE_INCREMENT := 1
  const MAC_SPAN: nat := 0x1_0000_0000_0000  // bridge ids are priority * 2^48 + MAC address
  const HOLD_TIME := 256                     // one second, in timer ticks

  datatype PortState = Disabled | Listening | Learning | Forwarding | Blocking

  datatype Timer = Timer(active: bool, value: nat)

  function Start(value: nat): Timer { Timer(true, value) }

  function Stop(t: Timer): Timer { t.(active := false) }

  /** `stp_timer_expired`: the timer after `elapsed` ticks, and whether it fired. */
  predicate Expired(t: Timer, elapsed: nat, timeout: nat) {
    t.active && t.value + elapsed >= timeout
  }

  function Advance(t: Timer, elapsed: nat, timeout: nat): Timer {
    if t.active then Timer(t.value + elapsed < timeout, t.value + elapsed) else t
  }

  /** The four designated_* fields of a port; also what a configuration BPDU says. */
  datatype Vector = Vector(root: nat, cost: nat, bridge: nat, port: nat)

  /** Lexicographic order: the smaller vector is the better one. */
  predicate Less(v: Vector, w: Vector) {
    if v.root != w.root then v.root < w.root
    else if v.cost != w.cost then v.cost < w.cost
    else if v.bridge != w.bridge then v.bridge < w.bridge
    else v.port < w.port
  }

  datatype Config = Config(vector: Vector, messageAge: nat, maxAge: nat, helloTime: nat,
                           forwardDelay: nat, topologyChange: bool, topologyChangeAck: bool)

  /** What the bridge hands to its `send_bpdu` callback. */
  datatype Sent = SentConfig(port: nat, config: Config) | SentTcn(port: nat)

  /** The fields of a port that only transmission uses. */
  datatype Outbox = Outbox(topologyChangeAck: bool, configPending: bool, hold: Timer)

  datatype Port = Port(
    portId: nat, state: PortState, pathCost: nat, designated: Vector, out: Outbox,
    changeDetection: bool, messageAge: Timer, forwardDelay: Timer, stateChanged: bool)

  const NULL_PORT := Port(0, Disabled, 0, Vector(0, 0, 0, 0), Outbox(false, false, Timer(false, 0)),
                          false, Timer(false, 0), Timer(false, 0), false)

  type Ports = s: seq<Port> | |s| == MAX_PORTS witness seq(MAX_PORTS, i => NULL_PORT)
  type PortNo = i: int | 0 <= i < MAX_PORTS
  type RootPort = i: int | -1 <= i < MAX_PORTS  // -1 stands for the null pointer
  type PortEnd = i: int | 0 <= i <= MAX_PORTS

  /** Timer settings: those in force, those this bridge uses as root (in ticks), and
      those the user asked for (in ms). */
  datatype Times = Times(
    maxAge: nat, helloTime: nat, forwardDelay: nat,
    bridgeMaxAge: nat, bridgeHelloTime: nat, bridgeForwardDelay: nat,
    rqMaxAge: int, rqHelloTime: int, rqForwardDelay: int)

  /** Bridge timers, topology change signalling and the log of BPDUs sent. */
  datatype Signals = Signals(
    topologyChangeDetected: bool, topologyChange: bool,
    hello: Timer, tcn: Timer, topologyChangeTimer: Timer, sent: seq<Sent>)

  datatype Bridge = Bridge(
    bridgeId: nat, root: nat, rootPathCost: nat, rootPort: RootPort,
    times: Times, signals: Signals, ports: Ports, firstChanged: PortEnd)

  predicate Enabled(p: Port) { !p.state.Disabled? }

  predicate IsRoot(b: Bridge) { b.bridgeId == b.root }

  predicate IsDesignated(b: Bridge, p: Port) {
    p.designated.bridge == b.bridgeId && p.designated.port == p.portId
  }

  /** The vector the bridge itself offers on a port: what it transmits there. */
  function Own(b: Bridge, p: Port): Vector {
    Vector(b.root, b.rootPathCost, b.bridgeId, p.portId)
  }

  function SetPort(b: Bridge, i: PortNo, p: Port): Bridge { b.(ports := b.ports[i := p]) }

  // ----- transmission

  function TransmitTcn(b: Bridge): Bridge {
    if b.rootPort == -1 then b
    else b.(signals := b.signals.(sent := b.signals.sent + [SentTcn(b.rootPort)]))
  }

  function TransmittedAge(b: Bridge): nat {
    if IsRoot(b) || b.rootPort == -1 then 0
    else (b.ports[b.rootPort].messageAge.value + MESSAGE_AGE_INCREMENT) % 0x10000
  }

  function ConfigFor(b: Bridge, p: Port): Config {
    Config(Own(b, p), TransmittedAge(b), b.times.maxAge, b.times.helloTime, b.times.forwardDelay,
           b.signals.topologyChange, p.out.topologyChangeAck)
  }

  function TransmitConfig(b: Bridge, i: PortNo): Bridge {
    var p := b.ports[i];
    if !IsRoot(b) && b.rootPort == -1 then b
    else if p.out.hold.active then SetPort(b, i, p.(out := p.out.(configPending := true)))
    else if TransmittedAge(b) < b.times.maxAge then
      SetPort(b, i, p.(out := Outbox(false, false, Start(0))))
      .(signals := b.signals.(sent := b.signals.sent + [SentConfig(i, ConfigFor(b, p))]))
    else b
  }

  function ConfigGeneration(b: Bridge, i: nat): Bridge
    requires i <= MAX_PORTS
    decreases |b.ports| - i
  {
    if i == MAX_PORTS then b
    else if Enabled(b.ports[i]) && IsDesignated(b, b.ports[i]) then
      ConfigGeneration(TransmitConfig(b, i), i + 1)
    else ConfigGeneration(b, i + 1)
  }

  // ----- root and designated port selection

  function BecomeDesignated(b: Bridge, i: PortNo): Bridge {
    SetPort(b, i, b.ports[i].(designated := Own(b, b.ports[i])))
  }

  predicate SupersedesRoot(root: Port, p: Port) {
    var pCost := p.designated.cost + p.pathCost;
    var rootCost := root.designated.cost + root.pathCost;
    if p.designated.root != root.designated.root then p.designated.root < root.designated.root
    else if pCost != rootCost then pCost < rootCost
    else if p.designated.bridge != root.designated.bridge then
      p.designated.bridge < root.designated.bridge
    else if p.designated.port != root.designated.port then
      p.designated.port < root.designated.port
    else p.portId < root.portId
  }

  /** A port that may become the root port. */
  predicate Candidate(b: Bridge, p: Port) {
    Enabled(p) && !IsDesignated(b, p) && p.designated.root < b.bridgeId
  }

  function RootScan(b: Bridge, i: nat, root: RootPort): RootPort
    requires i <= MAX_PORTS
    decreases |b.ports| - i
  {
    if i == MAX_PORTS then root
    else if Candidate(b, b.ports[i]) && (root == -1 || SupersedesRoot(b.ports[root], b.ports[i]))
    then RootScan(b, i + 1, i)
    else RootScan(b, i + 1, root)
  }

  function WithRoot(b: Bridge, root: RootPort): Bridge {
    if root == -1 then b.(rootPort := -1, root := b.bridgeId, rootPathCost := 0)
    else b.(rootPort := root, root := b.ports[root].designated.root,
            rootPathCost := b.ports[root].designated.cost + b.ports[root].pathCost)
  }

  function RootSelection(b: Bridge): Bridge { WithRoot(b, RootScan(b, 0, -1)) }

  /** The bridge's own offer on `p` is at least as good as the recorded one, or
      the record is about another root. */
  predicate ShouldDesignate(b: Bridge, p: Port) {
    || IsDesignated(b, p)
    || p.designated.root != b.root
    || b.rootPathCost < p.designated.cost
    || (b.rootPathCost == p.designated.cost
        && (b.bridgeId < p.designated.bridge
            || (b.bridgeId == p.designated.bridge && p.portId <= p.designated.port)))
  }

  function DesignatedSelection(b: Bridge, i: nat): Bridge
    requires i <= MAX_PORTS
    decreases |b.ports| - i
  {
    if i == MAX_PORTS then b
    else if Enabled(b.ports[i]) && ShouldDesignate(b, b.ports[i]) then
      DesignatedSelection(BecomeDesignated(b, i), i + 1)
    else DesignatedSelection(b, i + 1)
  }

  function ConfigurationUpdate(b: Bridge): Bridge { DesignatedSelection(RootSelection(b), 0) }

  // ----- port states

  function SetPortState(b: Bridge, i: PortNo, s: PortState): Bridge {
    var p := b.ports[i];
    SetPort(b, i, p.(state := s, stateChanged := p.stateChanged || s != p.state))
    .(firstChanged := if s != p.state && !p.stateChanged && i < b.firstChanged
                      then i else b.firstChanged)
  }

  function TopologyChangeDetection(b: Bridge): Bridge {
    var s := b.signals;
    if IsRoot(b) then
      b.(signals := s.(topologyChangeDetected := true, topologyChange := true,
                       topologyChangeTimer := Start(0)))
    else if !s.topologyChangeDetected then
      var c := TransmitTcn(b);
      c.(signals := c.signals.(topologyChangeDetected := true, tcn := Start(0)))
    else b
  }

  function MakeForwarding(b: Bridge, i: PortNo): Bridge {
    if b.ports[i].state.Blocking? then
      var c := SetPortState(b, i, Listening);
      SetPort(c, i, c.ports[i].(forwardDelay := Start(0)))
    else b
  }

  function MakeBlocking(b: Bridge, i: PortNo): Bridge {
    var p := b.ports[i];
    if p.state.Disabled? || p.state.Blocking? then b
    else
      var c := if (p.state.Forwarding? || p.state.Learning?) && p.changeDetection
               then TopologyChangeDetection(b) else b;
      var d := SetPortState(c, i, Blocking);
      SetPort(d, i, d.ports[i].(forwardDelay := Stop(d.ports[i].forwardDelay)))
  }

  function ClearOutbox(p: Port): Port {
    p.(out := p.out.(configPending := false, topologyChangeAck := false))
  }

  function SelectState(b: Bridge, i: PortNo): Bridge {
    var p := b.ports[i];
    if i == b.rootPort then MakeForwarding(SetPort(b, i, ClearOutbox(p)), i)
    else if IsDesignated(b, p) then
      MakeForwarding(SetPort(b, i, p.(messageAge := Stop(p.messageAge))), i)
    else MakeBlocking(SetPort(b, i, ClearOutbox(p)), i)
  }

  function StateSelection(b: Bridge, i: nat): Bridge
    requires i <= MAX_PORTS
    decreases |b.ports| - i
  {
    if i == MAX_PORTS then b
    else if Enabled(b.ports[i]) then StateSelection(SelectState(b, i), i + 1)
    else StateSelection(b, i + 1)
  }

  /** The pair of calls every change of recorded information ends with. */
  function Reselect(b: Bridge): Bridge { StateSelection(ConfigurationUpdate(b), 0) }

  function OwnTimes(t: Times): Times {
    t.(maxAge := t.bridgeMaxAge, helloTime := t.bridgeHelloTime,
       forwardDelay := t.bridgeForwardDelay)
  }

  function BecomeRootBridge(b: Bridge): Bridge {
    var c := TopologyChangeDetection(b.(times := OwnTimes(b.times)));
    var d := ConfigGeneration(c.(signals := c.signals.(tcn := Stop(c.signals.tcn))), 0);
    d.(signals := d.signals.(hello := Start(0)))
  }

  /** Reselection, followed by the root duties if the bridge has just become root. */
  function ReselectAsRoot(b: Bridge, wasRoot: bool): Bridge {
    var c := Reselect(b);
    if IsRoot(c) && !wasRoot then BecomeRootBridge(c) else c
  }

  // ----- BPDU arrival

  predicate SupersedesPortInfo(bridgeId: nat, p: Port, v: Vector) {
    if v.root != p.designated.root then v.root < p.designated.root
    else if v.cost != p.designated.cost then v.cost < p.designated.cost
    else if v.bridge != p.designated.bridge then v.bridge < p.designated.bridge
    else v.bridge != bridgeId || v.port <= p.designated.port
  }

  function RecordConfig(b: Bridge, i: PortNo, config: Config): Bridge {
    SetPort(b, i, b.ports[i].(designated := config.vector,
                              messageAge := Start(config.messageAge)))
  }

  function LoseRoot(b: Bridge): Bridge {
    var s := b.signals.(hello := Stop(b.signals.hello));
    if s.topologyChangeDetected then
      var c := TransmitTcn(
                 b.(signals := s.(topologyChangeTimer := Stop(s.topologyChangeTimer))));
      c.(signals := c.signals.(tcn := Start(0)))
    else b.(signals := s)
  }

  function FollowRoot(b: Bridge, config: Config): Bridge {
    var c := ConfigGeneration(
               b.(times := b.times.(maxAge := config.maxAge, helloTime := config.helloTime,
                                    forwardDelay := config.forwardDelay),
                  signals := b.signals.(topologyChange := config.topologyChange)), 0);
    if config.topologyChangeAck then
      c.(signals := c.signals.(topologyChangeDetected := false, tcn := Stop(c.signals.tcn)))
    else c
  }

  function ReceivedConfig(b: Bridge, i: PortNo, config: Config): Bridge {
    var p := b.ports[i];
    if config.messageAge >= config.maxAge || !Enabled(p) then b
    else if SupersedesPortInfo(b.bridgeId, p, config.vector) then
      var c := Reselect(RecordConfig(b, i, config));
      var d := if !IsRoot(c) && IsRoot(b) then LoseRoot(c) else c;
      if i == d.rootPort then FollowRoot(d, config) else d
    else if IsDesignated(b, p) then TransmitConfig(b, i)
    else b
  }

  function ReceivedTcn(b: Bridge, i: PortNo): Bridge {
    if Enabled(b.ports[i]) && IsDesignated(b, b.ports[i]) then
      var c := TopologyChangeDetection(b);
      var p := c.ports[i];
      TransmitConfig(SetPort(c, i, p.(out := p.out.(topologyChangeAck := true))), i)
    else b
  }

  // ----- timers

  function HelloTick(b: Bridge, elapsed: nat): Bridge {
    var t := b.signals.hello;
    var c := b.(signals := b.signals.(hello := Advance(t, elapsed, b.times.helloTime)));
    if Expired(t, elapsed, b.times.helloTime) then
      var d := ConfigGeneration(c, 0);
      d.(signals := d.signals.(hello := Start(0)))
    else c
  }

  function TcnTick(b: Bridge, elapsed: nat): Bridge {
    var t := b.signals.tcn;
    var c := b.(signals := b.signals.(tcn := Advance(t, elapsed, b.times.bridgeHelloTime)));
    if Expired(t, elapsed, b.times.bridgeHelloTime) then
      var d := TransmitTcn(c);
      d.(signals := d.signals.(tcn := Start(0)))
    else c
  }

  function TopologyChangeTick(b: Bridge, elapsed: nat): Bridge {
    var t := b.signals.topologyChangeTimer;
    var timeout := b.times.maxAge + b.times.forwardDelay;
    var s := b.signals.(topologyChangeTimer := Advance(t, elapsed, timeout));
    if Expired(t, elapsed, timeout) then
      b.(signals := s.(topologyChangeDetected := false, topologyChange := false))
    else b.(signals := s)
  }

  function MessageAgeExpiry(b: Bridge, i: PortNo): Bridge {
    ReselectAsRoot(BecomeDesignated(b, i), IsRoot(b))
  }

  function AgePort(b: Bridge, i: PortNo, elapsed: nat): Bridge {
    var t := b.ports[i].messageAge;
    var c := SetPort(b, i, b.ports[i].(messageAge := Advance(t, elapsed, b.times.maxAge)));
    if Expired(t, elapsed, b.times.maxAge) then MessageAgeExpiry(c, i) else c
  }

  function AgePorts(b: Bridge, i: nat, elapsed: nat): Bridge
    requires i <= MAX_PORTS
    decreases |b.ports| - i
  {
    if i == MAX_PORTS then b
    else if Enabled(b.ports[i]) then AgePorts(AgePort(b, i, elapsed), i + 1, elapsed)
    else AgePorts(b, i + 1, elapsed)
  }

  predicate DesignatedForSomePort(b: Bridge) {
    exists i: PortNo :: Enabled(b.ports[i]) && b.ports[i].designated.bridge == b.bridgeId
  }

  function ForwardDelayExpiry(b: Bridge, i: PortNo): Bridge {
    if b.ports[i].state.Listening? then
      var c := SetPortState(b, i, Learning);
      SetPort(c, i, c.ports[i].(forwardDelay := Start(0)))
    else if b.ports[i].state.Learning? then
      var c := SetPortState(b, i, Forwarding);
      if DesignatedForSomePort(c) && c.ports[i].changeDetection then TopologyChangeDetection(c) else c
    else b
  }

  function AdvanceForwardDelay(b: Bridge, i: PortNo, elapsed: nat): Bridge {
    var t := b.ports[i].forwardDelay;
    var c := SetPort(b, i, b.ports[i].(forwardDelay := Advance(t, elapsed, b.times.forwardDelay)));
    if Expired(t, elapsed, b.times.forwardDelay) then ForwardDelayExpiry(c, i) else c
  }

  function AdvanceHold(b: Bridge, i: PortNo, elapsed: nat): Bridge {
    var p := b.ports[i];
    var t := p.out.hold;
    var c := SetPort(b, i, p.(out := p.out.(hold := Advance(t, elapsed, HOLD_TIME))));
    if Expired(t, elapsed, HOLD_TIME) && p.out.configPending then TransmitConfig(c, i) else c
  }

  function AdvancePorts(b: Bridge, i: nat, elapsed: nat): Bridge
    requires i <= MAX_PORTS
    decreases |b.ports| - i
  {
    if i == MAX_PORTS then b
    else if Enabled(b.ports[i]) then
      AdvancePorts(AdvanceHold(AdvanceForwardDelay(b, i, elapsed), i, elapsed), i + 1, elapsed)
    else AdvancePorts(b, i + 1, elapsed)
  }

  function Tick(b: Bridge, elapsed: nat): Bridge {
    if elapsed == 0 then b
    else
      var c := TopologyChangeTick(TcnTick(HelloTick(b, elapsed), elapsed), elapsed);
      AdvancePorts(AgePorts(c, 0, elapsed), 0, elapsed)
  }

  // ----- management

  function RenameDesignated(b: Bridge, i: nat, id: nat): Bridge
    requires i <= MAX_PORTS
    decreases |b.ports| - i
  {
    if i == MAX_PORTS then b
    else
      var p := b.ports[i];
      if Enabled(p) && IsDesignated(b, p) then
        RenameDesignated(SetPort(b, i, p.(designated := p.designated.(bridge := id))), i + 1, id)
      else RenameDesignated(b, i + 1, id)
  }

  function SetBridgeId(b: Bridge, id: nat): Bridge {
    if id == b.bridgeId then b
    else ReselectAsRoot(RenameDesignated(b, 0, id).(bridgeId := id), IsRoot(b))
  }

  /** `id` with its low 48 bits, or its high 16 bits, replaced. */
  function WithMac(id: nat, mac: nat): nat { id / MAC_SPAN * MAC_SPAN + mac % MAC_SPAN }

  function WithPriority(id: nat, priority: nat): nat { priority * MAC_SPAN + id % MAC_SPAN }

  function InitializePort(b: Bridge, i: PortNo, s: PortState): Bridge {
    var c := SetPortState(BecomeDesignated(b, i), i, s);
    var p := c.ports[i];
    SetPort(c, i, p.(out := Outbox(false, false, Stop(p.out.hold)), changeDetection := true,
                     messageAge := Stop(p.messageAge), forwardDelay := Stop(p.forwardDelay)))
  }

  function EnablePort(b: Bridge, i: PortNo): Bridge {
    if Enabled(b.ports[i]) then b else StateSelection(InitializePort(b, i, Blocking), 0)
  }

  function Detach(b: Bridge, i: PortNo): Bridge {
    var c := SetPortState(BecomeDesignated(b, i), i, Disabled);
    var p := c.ports[i];
    SetPort(c, i, ClearOutbox(p).(messageAge := Stop(p.messageAge),
                                  forwardDelay := Stop(p.forwardDelay)))
  }

  function DisablePort(b: Bridge, i: PortNo): Bridge {
    if Enabled(b.ports[i]) then ReselectAsRoot(Detach(b, i), IsRoot(b)) else b
  }

  /** The low byte numbers the port, the high byte is its priority. */
  function PriorityId(p: Port, priority: nat): nat { p.portId % 256 + priority * 256 }

  function SetPriority(b: Bridge, i: PortNo, priority: nat): Bridge {
    var p := b.ports[i];
    var id := PriorityId(p, priority);
    if p.portId == id then b
    else
      var q := if IsDesignated(b, p) then p.(designated := p.designated.(port := id)) else p;
      var c := SetPort(b, i, q.(portId := id));
      if c.bridgeId == q.designated.bridge && id < q.designated.port
      then StateSelection(BecomeDesignated(c, i), 0) else c
  }

  function SetPathCost(b: Bridge, i: PortNo, cost: nat): Bridge {
    if b.ports[i].pathCost == cost then b
    else Reselect(SetPort(b, i, b.ports[i].(pathCost := cost)))
  }

  function SpeedCost(speed: nat): nat {
    if speed >= 10000 then 2
    else if speed >= 1000 then 4
    else if speed >= 100 then 19
    else if speed >= 16 then 62
    else if speed >= 10 then 100
    else if speed >= 4 then 250
    else 19
  }

  function Clamp(x: int, lo: int, hi: int): int { if x < lo then lo else if x > hi then hi else x }

  function MsToTimer(ms: nat): nat { ms * 256 / 1000 }

  function UpdateBridgeTimers(b: Bridge): Bridge {
    var t := b.times;
    var ht := Clamp(t.rqHelloTime, 1000, 10000);
    var ma := Clamp(t.rqMaxAge, if 2 * (ht + 1000) > 6000 then 2 * (ht + 1000) else 6000, 40000);
    var fd := Clamp(t.rqForwardDelay, ma / 2 + 1000, 30000);
    var u := t.(bridgeHelloTime := MsToTimer(ht), bridgeMaxAge := MsToTimer(ma),
                bridgeForwardDelay := MsToTimer(fd));
    b.(times := if IsRoot(b) then OwnTimes(u) else u)
  }

  /** `stp_get_changed_port`: the first changed port at or after `i`, or the end. */
  function FirstChangedFrom(ports: Ports, i: nat): (r: PortEnd)
    requires i <= MAX_PORTS
    ensures i <= r && (r < MAX_PORTS ==> ports[r].stateChanged)
    ensures forall j: PortNo :: i <= j < r ==> !ports[j].stateChanged
    decreases |ports| - i
  {
    if i == MAX_PORTS || ports[i].stateChanged then i else FirstChangedFrom(ports, i + 1)
  }

  function TakeChanged(b: Bridge): Bridge {
    var i := FirstChangedFrom(b.ports, b.firstChanged);
    if i == MAX_PORTS then b.(firstChanged := MAX_PORTS)
    else SetPort(b, i, b.ports[i].(stateChanged := false)).(firstChanged := i + 1)
  }

  function DefaultId(id: nat): nat {
    if id / MAC_SPAN == 0 then id + DEFAULT_BRIDGE_PRIORITY * MAC_SPAN else id
  }

  function NewPort(id: nat, i: nat): Port {
    var portId := i + 1 + DEFAULT_PORT_PRIORITY * 256;
    Port(portId, Disabled, 19, Vector(id, 0, id, portId), Outbox(false, false, Timer(false, 0)),
         true, Timer(false, 0), Timer(false, 0), true)
  }

  /** `stp_create`.  The port states move from the zero of `xcalloc` to disabled,
      so every port starts out marked as changed. */
  function Create(id0: nat): Bridge {
    var id := DefaultId(id0);
    UpdateBridgeTimers(
      Bridge(id, id, 0, -1, Times(0, 0, 0, 0, 0, 0, 6000, 2000, 4000),
             Signals(false, false, Start(0), Timer(false, 0), Timer(false, 0), []),
             seq(MAX_PORTS, i requires 0 <= i < MAX_PORTS => NewPort(id, i)), 0))
  }

  // ----- every public call, and runs of calls

  datatype Event =
    | Ticks(elapsed: nat)
    | Bpdu(i: PortNo, config: Config)
    | Tcn(i: PortNo)
    | Enable(i: PortNo)
    | Disable(i: PortNo)
    | Priority(i: PortNo, priority: nat)
    | PathCost(i: PortNo, cost: nat)
    | Speed(i: PortNo, speed: nat)
    | BridgeMac(mac: nat)
    | BridgePriority(priority: nat)
    | HelloTime(ms: int)
    | MaxAge(ms: int)
    | ForwardDelay(ms: int)
    | ChangeDetection(i: PortNo, on: bool)
    | ChangedPort

  function Step(b: Bridge, e: Event): Bridge {
    match e
    case Ticks(elapsed) => Tick(b, elapsed)
    case Bpdu(i, config) => ReceivedConfig(b, i, config)
    case Tcn(i) => ReceivedTcn(b, i)
    case Enable(i) => EnablePort(b, i)
    case Disable(i) => DisablePort(b, i)
    case Priority(i, priority) => SetPriority(b, i, priority)
    case PathCost(i, cost) => SetPathCost(b, i, cost)
    case Speed(i, speed) => SetPathCost(b, i, SpeedCost(speed))
    case BridgeMac(mac) => SetBridgeId(b, WithMac(b.bridgeId, mac))
    case BridgePriority(priority) => SetBridgeId(b, WithPriority(b.bridgeId, priority))
    case HelloTime(ms) => UpdateBridgeTimers(b.(times := b.times.(rqHelloTime := ms)))
    case MaxAge(ms) => UpdateBridgeTimers(b.(times := b.times.(rqMaxAge := ms)))
    case ForwardDelay(ms) => UpdateBridgeTimers(b.(times := b.times.(rqForwardDelay := ms)))
    case ChangeDetection(i, on) => SetPort(b, i, b.ports[i].(changeDetection := on))
    case ChangedPort => TakeChanged(b)
  }

  function Run(b: Bridge, events: seq<Event>): Bridge {
    if events == [] then b else Step(Run(b, events[..|events| - 1]), events[|events| - 1])
  }
}
