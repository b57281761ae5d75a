/** The kernel hooks as they change the shared maps, each proved to be a step of the
    machine in FlowLedger.dfy or to change nothing. */
module Hooks {
  import opened Options
  import opened FlowLedger

  const TCP_CLOSE := 7

  /** What a connect asked for, before any address translation. */
  datatype OriginalDst = OriginalDst(ip: nat, port: nat, pid: nat)

  /** The events that carry no bytes. */
  datatype Notice =
    | Connected(cookie: Cookie, protocol: nat, dst: OriginalDst)
    | Established(cookie: Cookie, key: FlowKey, original: Option<OriginalDst>)

  datatype SockOp =
    | ActiveEstablished(key: FlowKey)
    | PassiveEstablished(key: FlowKey)
    | StateChange(newState: int)
    | OtherOp

  /** A connected UDP socket's key: its own address is not known yet. */
  function UdpKey(dst: OriginalDst): FlowKey {
    FlowKey(0, dst.ip, 0, dst.port, dst.pid, UDP, 0)
  }

  /** A TCP connection's key: its process is known only from the connect. */
  function TcpKey(key: FlowKey, direction: nat, original: Option<OriginalDst>): FlowKey {
    key.(pid := if original.Some? then original.value.pid else 0, protocol := TCP, direction := direction)
  }

  predicate Tracked(protocol: nat, enabled: bool, trackUdp: bool, sampled: bool) {
    enabled && (protocol == TCP || (protocol == UDP && trackUdp)) && sampled
  }

  /** The step of the machine that a socket callback amounts to, if any: an outgoing
      connection that was sampled out at its connect is skipped, an incoming one is
      sampled here. */
  function Followed(op: SockOp, cpu: Cpu, cookie: Cookie, original: Option<OriginalDst>, sampleRate: nat, drawn: bool,
                    ringFull: bool): Option<Step> {
    match op
    case ActiveEstablished(key) =>
      if original.None? && sampleRate > 1 then None else Some(Establish(cpu, cookie, TcpKey(key, 0, original)))
    case PassiveEstablished(key) =>
      if sampleRate <= 1 || drawn then Some(Establish(cpu, cookie, TcpKey(key, 1, None))) else None
    case StateChange(newState) => Some(if newState == TCP_CLOSE then Close(cookie, ringFull) else HalfClose(cookie))
    case OtherOp => None
  }

  function Lookup<K, V>(m: map<K, V>, k: K): Option<V> {
    if k in m then Some(m[k]) else None
  }

  /** The maps the hooks share. A CPU whose lookup missed has its insert in `inserting`
      until it has taken place. */
  class Kernel {
    var connections: map<Cookie, Entry>
    var flowAggregates: map<FlowKey, seq<Bytes>>
    var inserting: seq<Option<Entry>>
    var flowDrops: nat
    var originalDst: map<Cookie, OriginalDst>
    /** The close events, the other events, and how many of both found the ring full. */
    var events: seq<Entry>
    var notices: seq<Notice>
    var eventDrops: nat
    /** Numbers the connection entries; no hook decides by it. */
    var generations: nat
    /** The ledgers, and the poller's side of the state. */
    ghost var metered: seq<Entry>
    ghost var forgone: seq<Entry>
    ghost var lost: seq<Entry>
    ghost var ended: seq<Entry>
    ghost const agent: State

    constructor (cpus: nat)
      ensures View() == Init(cpus) && originalDst == map[] && notices == [] && eventDrops == 0
    {
      originalDst, notices, eventDrops := map[], [], 0;
      connections, flowAggregates, inserting, flowDrops, events := map[], map[], seq(cpus, _ => None), 0, [];
      generations, metered, forgone, lost, ended := 0, [], [], [], [];
      agent := Init(cpus);
    }

    ghost function View(): State
      reads this
    {
      agent.(conns := connections, flows := flowAggregates, pending := inserting, drops := flowDrops, events := events,
             generations := generations, metered := metered, forgone := forgone, lost := lost, ended := ended)
    }

    /** A connection entry's record goes away with its tally. */
    method DeleteConnection(cookie: Cookie)
      modifies `connections, `ended
      ensures View() == EndTally(old(View()), cookie)
    {
      if cookie in connections {
        ended := ended + [connections[cookie]];
        connections := connections - {cookie};
      }
    }

    /** Finding the entry and adding to it; a miss leaves the insert to come. */
    method UpdateFlowAggregate(cpu: Cpu, d: Entry)
      requires Free(View(), cpu) && Shaped(View())
      modifies `flowAggregates, `inserting
      ensures View() == UpdateAggregate(old(View()), cpu, d)
    {
      if d.key in flowAggregates {
        var slots := flowAggregates[d.key];
        flowAggregates := flowAggregates[d.key := slots[cpu := slots[cpu].Plus(d.bytes)]];
      } else {
        inserting := inserting[cpu := Some(d)];
      }
    }

    /** The insert of a missed entry: it fails when another CPU was faster or there is
        no room, and then the drop is counted. */
    method InsertFlow(cpu: Cpu, room: bool)
      requires Enabled(View(), Insert(cpu, room))
      modifies `flowAggregates, `inserting, `flowDrops, `lost
      ensures View() == Apply(old(View()), Insert(cpu, room))
    {
      var d := inserting[cpu].value;
      inserting := inserting[cpu := None];
      if d.key !in flowAggregates && room {
        flowAggregates := flowAggregates[d.key := NewSlots(|inserting|, cpu, d.bytes)];
      } else {
        flowDrops := flowDrops + 1;
        lost := lost + [d];
      }
    }

    /** Shared by the byte-counting hooks once their guards have passed. */
    method CountBytes(cpu: Cpu, cookie: Cookie, b: Bytes)
      requires Free(View(), cpu) && Shaped(View()) && cookie in connections
      modifies `connections, `flowAggregates, `inserting, `metered
      ensures View() == Meter(old(View()), cpu, cookie, b)
    {
      var conn := connections[cookie];
      connections := connections[cookie := conn.(bytes := conn.bytes.Plus(b))];
      UpdateFlowAggregate(cpu, conn.(bytes := b));
      metered := metered + [conn.(bytes := b)];
    }

    method TcpSendmsg(cpu: Cpu, cookie: Cookie, size: int, enabled: bool, sidecar: bool)
      requires Free(View(), cpu) && Shaped(View())
      modifies `connections, `flowAggregates, `inserting, `metered
      ensures View() == if enabled && size > 0 && cookie in old(connections) && !sidecar
                        then Apply(old(View()), Send(cpu, cookie, size)) else old(View())
    {
      if !enabled || size <= 0 || cookie !in connections || sidecar {
        return;
      }
      CountBytes(cpu, cookie, Bytes(size, 0));
    }

    method TcpCleanupRbuf(cpu: Cpu, cookie: Cookie, copied: int, enabled: bool, sidecar: bool)
      requires Free(View(), cpu) && Shaped(View())
      modifies `connections, `flowAggregates, `inserting, `metered
      ensures View() == if enabled && copied > 0 && cookie in old(connections) && !sidecar
                        then Apply(old(View()), Receive(cpu, cookie, copied)) else old(View())
    {
      if !enabled || copied <= 0 || cookie !in connections || sidecar {
        return;
      }
      CountBytes(cpu, cookie, Bytes(0, copied));
    }

    method UdpSendmsg(cpu: Cpu, cookie: Cookie, len: int, enabled: bool)
      requires Free(View(), cpu) && Shaped(View())
      modifies `connections, `flowAggregates, `inserting, `metered
      ensures View() == if enabled && len > 0 && cookie in old(connections) && old(connections)[cookie].key.protocol == UDP
                        then Apply(old(View()), Send(cpu, cookie, len)) else old(View())
    {
      if !enabled || len <= 0 || cookie !in connections || connections[cookie].key.protocol != UDP {
        return;
      }
      CountBytes(cpu, cookie, Bytes(len, 0));
    }

    /** The UDP receive hook inserts nothing: without a flow entry only the connection
        counts the bytes. */
    method UdpRecvmsgExit(cpu: Cpu, cookie: Cookie, ret: int, enabled: bool)
      requires Free(View(), cpu) && Shaped(View())
      modifies `connections, `flowAggregates, `metered, `forgone
      ensures View() == if enabled && ret > 0 && cookie in old(connections) && old(connections)[cookie].key.protocol == UDP
                        then Apply(old(View()), ReceiveUdp(cpu, cookie, ret)) else old(View())
    {
      if !enabled || ret <= 0 || cookie !in connections || connections[cookie].key.protocol != UDP {
        return;
      }
      var conn := connections[cookie];
      connections := connections[cookie := conn.(bytes := conn.bytes.Plus(Bytes(0, ret)))];
      if conn.key in flowAggregates {
        var slots := flowAggregates[conn.key];
        flowAggregates := flowAggregates[conn.key := slots[cpu := slots[cpu].Plus(Bytes(0, ret))]];
        metered := metered + [conn.(bytes := Bytes(0, ret))];
      } else {
        forgone := forgone + [conn.(bytes := Bytes(0, ret))];
      }
    }

    /** An event that carries no bytes is sent, or its loss counted. */
    method Notify(notice: Notice, ringFull: bool)
      modifies `notices, `eventDrops
      ensures notices == if ringFull then old(notices) else old(notices) + [notice]
      ensures eventDrops == old(eventDrops) + if ringFull then 1 else 0
    {
      if ringFull {
        eventDrops := eventDrops + 1;
      } else {
        notices := notices + [notice];
      }
    }

    method OpenUdp(cookie: Cookie, key: FlowKey)
      requires key.protocol == UDP
      modifies `connections, `generations
      ensures View() == Apply(old(View()), ConnectUdp(cookie, key))
    {
      if cookie !in connections {
        connections := connections[cookie := Entry(key, generations, ZERO)];
        generations := generations + 1;
      }
    }

    /** A connect leaves its destination for the establish to come; a UDP one creates the
        entry unless the socket already has one. */
    method Connect4(cookie: Cookie, protocol: nat, dst: OriginalDst, enabled: bool, trackUdp: bool, sampled: bool,
                    ringFull: bool)
      modifies `connections, `generations, `originalDst, `notices, `eventDrops
      ensures View() == if Tracked(protocol, enabled, trackUdp, sampled) && protocol == UDP
                        then Apply(old(View()), ConnectUdp(cookie, UdpKey(dst))) else old(View())
      ensures originalDst == if Tracked(protocol, enabled, trackUdp, sampled)
                             then old(originalDst)[cookie := dst] else old(originalDst)
      ensures notices == if Tracked(protocol, enabled, trackUdp, sampled) && !ringFull
                         then old(notices) + [Connected(cookie, protocol, dst)] else old(notices)
      ensures eventDrops == old(eventDrops) + if Tracked(protocol, enabled, trackUdp, sampled) && ringFull then 1 else 0
    {
      if !enabled || (protocol != TCP && !(protocol == UDP && trackUdp)) || !sampled {
        return;
      }
      originalDst := originalDst[cookie := dst];
      if protocol == UDP {
        OpenUdp(cookie, UdpKey(dst));
      }
      Notify(Connected(cookie, protocol, dst), ringFull);
    }

    /** What the connect of an outgoing connection left behind is used up. */
    method TakeOriginal(cookie: Cookie, direction: nat) returns (original: Option<OriginalDst>)
      modifies `originalDst
      ensures original == if direction == 0 then Lookup(old(originalDst), cookie) else None
      ensures originalDst == if direction == 0 then old(originalDst) - {cookie} else old(originalDst)
    {
      original := None;
      if direction == 0 && cookie in originalDst {
        original := Some(originalDst[cookie]);
        originalDst := originalDst - {cookie};
      }
    }

    /** A new entry, replacing any old one, and a flow entry of zero bytes to be there
        for the first poll. */
    method OpenTcp(cpu: Cpu, cookie: Cookie, key: FlowKey)
      requires Free(View(), cpu) && Shaped(View()) && key.protocol == TCP
      modifies `connections, `ended, `inserting, `generations
      ensures View() == Apply(old(View()), Establish(cpu, cookie, key))
    {
      DeleteConnection(cookie);
      connections := connections[cookie := Entry(key, generations, ZERO)];
      if key !in flowAggregates {
        inserting := inserting[cpu := Some(Entry(key, generations, ZERO))];
      }
      generations := generations + 1;
    }

    /** A TCP connection established. An outgoing one takes its process from its connect. */
    method HandleEstablished(cpu: Cpu, cookie: Cookie, socket: FlowKey, direction: nat, ringFull: bool)
      requires Free(View(), cpu) && Shaped(View())
      modifies this
      ensures var original := if direction == 0 then Lookup(old(originalDst), cookie) else None;
              var key := TcpKey(socket, direction, original);
              && View() == Apply(old(View()), Establish(cpu, cookie, key))
              && originalDst == (if direction == 0 then old(originalDst) - {cookie} else old(originalDst))
              && notices == (if ringFull then old(notices) else old(notices) + [Established(cookie, key, original)])
              && eventDrops == old(eventDrops) + if ringFull then 1 else 0
    {
      var original := TakeOriginal(cookie, direction);
      var key := TcpKey(socket, direction, original);
      OpenTcp(cpu, cookie, key);
      Notify(Established(cookie, key, original), ringFull);
    }

    /** Only the fully closed state ends a connection; its event carries the tally, or
        is dropped and counted when the ring is full. */
    method HandleStateChange(newState: int, cookie: Cookie, ringFull: bool)
      modifies `connections, `ended, `events, `eventDrops
      ensures View() == Apply(old(View()), if newState == TCP_CLOSE then Close(cookie, ringFull) else HalfClose(cookie))
      ensures eventDrops == old(eventDrops) +
                            if newState == TCP_CLOSE && cookie in old(connections) && ringFull then 1 else 0
    {
      if newState != TCP_CLOSE || cookie !in connections {
        return;
      }
      if ringFull {
        eventDrops := eventDrops + 1;
      } else {
        events := events + [connections[cookie]];
      }
      DeleteConnection(cookie);
    }

    /** The socket callback: nothing at all while the agent is disabled. */
    method SockOps(cpu: Cpu, cookie: Cookie, op: SockOp, enabled: bool, inet: bool, sampleRate: nat, drawn: bool,
                   ringFull: bool)
      requires Free(View(), cpu) && Shaped(View())
      modifies this
      ensures var step := if enabled && inet
                          then Followed(op, cpu, cookie, Lookup(old(originalDst), cookie), sampleRate, drawn, ringFull)
                          else None;
              && View() == (if step.Some? then Apply(old(View()), step.value) else old(View()))
              && (step.None? ==>
                    originalDst == old(originalDst) && notices == old(notices) && eventDrops == old(eventDrops))
    {
      if !enabled || !inet {
        return;
      }
      match op {
        case ActiveEstablished(key) =>
          if cookie !in originalDst && sampleRate > 1 {
            return;
          }
          HandleEstablished(cpu, cookie, key, 0, ringFull);
        case PassiveEstablished(key) =>
          if sampleRate <= 1 || drawn {
            HandleEstablished(cpu, cookie, key, 1, ringFull);
          }
        case StateChange(newState) => HandleStateChange(newState, cookie, ringFull);
        case OtherOp =>
      }
    }

    /** TCP entries stay until their close; what a connect left behind goes in any case,
        the agent enabled or not. */
    method SockRelease(cookie: Cookie, protocol: nat)
      requires Enabled(View(), Release(cookie, protocol))
      modifies `connections, `ended, `originalDst
      ensures View() == Apply(old(View()), Release(cookie, protocol))
      ensures originalDst == old(originalDst) - {cookie}
    {
      if protocol != TCP {
        DeleteConnection(cookie);
      }
      originalDst := originalDst - {cookie};
    }
  }

  /** From a connect to its establish: the connection is entered under its own addresses
      and ports with the process that connected, its event names the destination asked
      for, and the record of the connect is gone. */
  method ConnectThenEstablish(k: Kernel, cpu: Cpu, cookie: Cookie, dst: OriginalDst, socket: FlowKey, trackUdp: bool)
    requires Free(k.View(), cpu) && Shaped(k.View())
    modifies k
    ensures cookie in k.connections && cookie !in k.originalDst
    ensures var key := k.connections[cookie].key;
            && key.pid == dst.pid && key.protocol == TCP && key.direction == 0
            && key.srcIP == socket.srcIP && key.dstIP == socket.dstIP
            && key.srcPort == socket.srcPort && key.dstPort == socket.dstPort
            && k.connections[cookie].bytes == Bytes(0, 0)
            && k.notices == old(k.notices) + [Connected(cookie, TCP, dst), Established(cookie, key, Some(dst))]
  {
    k.Connect4(cookie, TCP, dst, true, trackUdp, true, false);
    k.HandleEstablished(cpu, cookie, socket, 0, false);
  }

  /** A connection that arrives has no known process, whatever connected before. */
  method AcceptIncoming(k: Kernel, cpu: Cpu, cookie: Cookie, socket: FlowKey)
    requires Free(k.View(), cpu) && Shaped(k.View())
    modifies k
    ensures cookie in k.connections && k.originalDst == old(k.originalDst)
    ensures k.connections[cookie].key == FlowKey(socket.srcIP, socket.dstIP, socket.srcPort, socket.dstPort, 0, TCP, 1)
  {
    k.HandleEstablished(cpu, cookie, socket, 1, false);
  }

  /** A tracked UDP connect enters the destination asked for and the process. */
  method ConnectUdpSocket(k: Kernel, cookie: Cookie, dst: OriginalDst)
    requires cookie !in k.connections
    modifies k
    ensures cookie in k.connections && cookie in k.originalDst && k.originalDst[cookie] == dst
    ensures var key := k.connections[cookie].key;
            key.dstIP == dst.ip && key.dstPort == dst.port && key.pid == dst.pid && key.protocol == UDP && key.direction == 0
  {
    k.Connect4(cookie, UDP, dst, true, true, true, false);
    assert cookie in k.View().conns;
  }

  /** A connect that is not tracked changes nothing: while disabled, when sampled out, for
      UDP unless asked for, and for other protocols. */
  method IgnoredConnect(k: Kernel, cookie: Cookie, protocol: nat, dst: OriginalDst, enabled: bool, trackUdp: bool,
                        sampled: bool, ringFull: bool)
    requires !enabled || !sampled || protocol !in {TCP, UDP} || (protocol == UDP && !trackUdp)
    modifies k
    ensures k.View() == old(k.View()) && k.originalDst == old(k.originalDst)
    ensures k.notices == old(k.notices) && k.eventDrops == old(k.eventDrops)
  {
    k.Connect4(cookie, protocol, dst, enabled, trackUdp, sampled, ringFull);
  }

  /** With sampling on, an outgoing connection whose connect left no record is not tracked;
      without sampling every establish is, and incoming ones by the draw. */
  lemma SampledOutIsSkipped(op: SockOp, cpu: Cpu, cookie: Cookie, original: Option<OriginalDst>, rate: nat, drawn: bool,
                            ringFull: bool)
    ensures var step := Followed(op, cpu, cookie, original, rate, drawn, ringFull);
            && (op.ActiveEstablished? ==> (step.None? <==> rate > 1 && original.None?))
            && (op.PassiveEstablished? ==> (step.None? <==> rate > 1 && !drawn))
            && (op.StateChange? ==> (step == Some(Close(cookie, ringFull)) <==> op.newState == TCP_CLOSE)
                                    && (step == Some(HalfClose(cookie)) <==> op.newState != TCP_CLOSE))
  {
  }
}
