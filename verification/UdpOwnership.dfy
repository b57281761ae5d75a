/** Which of its two recorders owns UDP transmit bytes: the loader's start sequence,
    its config map, SetEnabled toggles and the kernel hooks, in any interleaving. */
module UdpOwnership {
  import opened Options

  /** The part of agent_config that decides; the map starts zeroed. */
  datatype Config = Config(enabled: bool, trackUdp: bool, udpSocketTx: bool)

  const ZEROED := Config(false, false, false)

  /** What is fixed over one agent run: the flags, which optional programs attach,
      and whether SetEnabled may be called before Start has pushed the config. */
  datatype Setup = Setup(enabled: bool, trackUdp: bool, sendmsgAttaches: bool, quicAttaches: bool, earlyToggles: bool)

  /** How far Start has come. */
  datatype Progress = Loaded | SendmsgTried | QuicTried | Pushed

  /** connecting and checking count hooks between their config check and their write. */
  datatype State = State(progress: Progress, sendmsgOn: bool, quicOn: bool, config: Config, toggle: Option<Config>,
                         connecting: nat, conns: set<nat>, checking: nat, socketTx: nat, quicTx: nat)

  datatype Step =
    | AttachSendmsg
    | AttachQuic
    | PushConfig
    | ToggleRead
    | ToggleWrite(enabled: bool)
    | ConnectCheck
    | ConnectInsert(cookie: nat)
    | SendMsg(cookie: nat, n: nat)
    | EgressCheck
    | EgressRecord(n: nat)
    | Release(cookie: nat)

  const START := State(Loaded, false, false, ZEROED, None, 0, {}, 0, 0, 0)

  function UdpSocketTx(trackUdp: bool, sendmsgAttached: bool): bool {
    trackUdp && sendmsgAttached
  }

  predicate Enabled(u: Setup, s: State, step: Step) {
    match step
    case AttachSendmsg => s.progress == Loaded
    case AttachQuic => s.progress == SendmsgTried
    case PushConfig => s.progress == QuicTried
    case ToggleRead => s.toggle.None? && (u.earlyToggles || s.progress == Pushed)
    case ToggleWrite(enabled) => s.toggle.Some?
    case ConnectCheck => s.config.enabled && s.config.trackUdp
    case ConnectInsert(cookie) => s.connecting > 0
    case SendMsg(cookie, n) => s.sendmsgOn && s.config.enabled && cookie in s.conns
    case EgressCheck => s.quicOn && s.config.enabled && !s.config.udpSocketTx
    case EgressRecord(n) => s.checking > 0
    case Release(cookie) => true
  }

  function Apply(u: Setup, s: State, step: Step): State
    requires Enabled(u, s, step)
  {
    match step
    case AttachSendmsg => s.(progress := SendmsgTried, sendmsgOn := u.sendmsgAttaches)
    case AttachQuic => s.(progress := QuicTried, quicOn := u.quicAttaches)
    case PushConfig => s.(progress := Pushed, config := Config(u.enabled, u.trackUdp, UdpSocketTx(u.trackUdp, s.sendmsgOn)))
    case ToggleRead => s.(toggle := Some(s.config))
    case ToggleWrite(enabled) => s.(config := s.toggle.value.(enabled := enabled), toggle := None)
    case ConnectCheck => s.(connecting := s.connecting + 1)
    case ConnectInsert(cookie) => s.(connecting := s.connecting - 1, conns := s.conns + {cookie})
    case SendMsg(cookie, n) => s.(socketTx := s.socketTx + n)
    case EgressCheck => s.(checking := s.checking + 1)
    case EgressRecord(n) => s.(checking := s.checking - 1, quicTx := s.quicTx + n)
    case Release(cookie) => s.(conns := s.conns - {cookie})
  }

  /** UDP transmit bytes have been recorded on one side only. */
  predicate SingleOwner(s: State) {
    s.socketTx == 0 || s.quicTx == 0
  }

  // ----- when the socket path records nothing -----

  predicate TracksOnlyIfAsked(u: Setup, s: State) {
    && (s.config.trackUdp ==> u.trackUdp)
    && (s.toggle.Some? && s.toggle.value.trackUdp ==> u.trackUdp)
    && (s.connecting > 0 || s.conns != {} ==> u.trackUdp)
    && (s.sendmsgOn ==> u.sendmsgAttaches)
    && (s.socketTx > 0 ==> u.trackUdp && u.sendmsgAttaches)
  }

  // ----- when the egress hook records nothing -----

  /** Both sides could record, but the config is never visible half way. */
  predicate Guarded(u: Setup) {
    u.trackUdp && u.sendmsgAttaches && !u.earlyToggles
  }

  predicate EgressOnlyIfFree(u: Setup, s: State) {
    && (s.quicOn ==> u.quicAttaches)
    && (s.checking > 0 || s.quicTx > 0 ==> u.quicAttaches && !Guarded(u))
    && (Guarded(u) ==>
          && (s.progress != Pushed ==> s.config == ZEROED && s.toggle == None)
          && (s.progress == Pushed ==> s.config.udpSocketTx && (s.toggle.Some? ==> s.toggle.value.udpSocketTx))
          && (s.progress != Loaded ==> s.sendmsgOn))
  }

  predicate Kept(u: Setup, s: State) {
    TracksOnlyIfAsked(u, s) && EgressOnlyIfFree(u, s)
  }

  lemma StaysKept(u: Setup, s: State, step: Step)
    requires Kept(u, s) && Enabled(u, s, step)
    ensures Kept(u, Apply(u, s, step))
  {
  }

  // ----- runs -----

  predicate Possible(u: Setup, s: State, steps: seq<Step>)
    decreases |steps|
  {
    steps == [] || (Enabled(u, s, steps[0]) && Possible(u, Apply(u, s, steps[0]), steps[1..]))
  }

  function After(u: Setup, s: State, steps: seq<Step>): State
    requires Possible(u, s, steps)
    decreases |steps|
  {
    if steps == [] then s else After(u, Apply(u, s, steps[0]), steps[1..])
  }

  ghost predicate Reachable(u: Setup, s: State) {
    exists steps :: Possible(u, START, steps) && s == After(u, START, steps)
  }

  lemma {:induction false} RunStaysKept(u: Setup, s: State, steps: seq<Step>)
    requires Kept(u, s) && Possible(u, s, steps)
    ensures Kept(u, After(u, s, steps))
    decreases |steps|
  {
    if steps != [] {
      StaysKept(u, s, steps[0]);
      RunStaysKept(u, Apply(u, s, steps[0]), steps[1..]);
    }
  }

  /** Both recorders attach, UDP tracking is on, and the flag may be toggled before
      the config has been pushed. */
  predicate Overlaps(u: Setup) {
    u.trackUdp && u.sendmsgAttaches && u.quicAttaches && u.earlyToggles
  }

  lemma OneOwnerWhenGuarded(u: Setup, s: State)
    requires Reachable(u, s) && !Overlaps(u)
    ensures SingleOwner(s)
  {
    var steps :| Possible(u, START, steps) && s == After(u, START, steps);
    RunStaysKept(u, START, steps);
  }

  lemma {:induction false} OneMoreStep(u: Setup, s: State, steps: seq<Step>, step: Step)
    requires Possible(u, s, steps) && Enabled(u, After(u, s, steps), step)
    ensures Possible(u, s, steps + [step]) && After(u, s, steps + [step]) == Apply(u, After(u, s, steps), step)
    decreases |steps|
  {
    var more := steps + [step];
    if steps == [] {
      assert more[1..] == [] && more[0] == step;
    } else {
      OneMoreStep(u, Apply(u, s, steps[0]), steps[1..], step);
      assert more[1..] == steps[1..] + [step] && more[0] == steps[0];
    }
  }

  lemma StaysReachable(u: Setup, s: State, step: Step)
    requires Reachable(u, s) && Enabled(u, s, step)
    ensures Reachable(u, Apply(u, s, step))
  {
    var steps :| Possible(u, START, steps) && s == After(u, START, steps);
    OneMoreStep(u, START, steps, step);
  }

  /** SetEnabled(true) between the attachments and the push: the zeroed config says
      that nobody owns the socket path, so the egress hook records; after the push
      and another SetEnabled the socket path records too. */
  lemma TwoOwnersWhenToggledEarly(u: Setup) returns (s: State)
    requires Overlaps(u)
    ensures Reachable(u, s) && !SingleOwner(s)
  {
    assert Possible(u, START, []) && After(u, START, []) == START;
    var s1 := Apply(u, START, AttachSendmsg);
    StaysReachable(u, START, AttachSendmsg);
    var s2 := Apply(u, s1, AttachQuic);
    StaysReachable(u, s1, AttachQuic);
    var s3 := Toggled(u, s2, true);
    var s4 := Apply(u, s3, EgressCheck);
    StaysReachable(u, s3, EgressCheck);
    var s5 := Apply(u, s4, EgressRecord(1200));
    StaysReachable(u, s4, EgressRecord(1200));
    var s6 := Apply(u, s5, PushConfig);
    StaysReachable(u, s5, PushConfig);
    var s7 := Toggled(u, s6, true);
    s := SocketSend(u, s7);
  }

  lemma Toggled(u: Setup, s: State, enabled: bool) returns (t: State)
    requires Reachable(u, s) && Enabled(u, s, ToggleRead)
    ensures Reachable(u, t) && t == s.(config := s.config.(enabled := enabled))
  {
    StaysReachable(u, s, ToggleRead);
    t := Apply(u, s, ToggleRead);
    StaysReachable(u, t, ToggleWrite(enabled));
    t := Apply(u, t, ToggleWrite(enabled));
  }

  lemma SocketSend(u: Setup, s: State) returns (t: State)
    requires Reachable(u, s) && s.config.enabled && s.config.trackUdp && s.sendmsgOn
    ensures Reachable(u, t) && t.socketTx > 0 && t.quicTx == s.quicTx
  {
    StaysReachable(u, s, ConnectCheck);
    t := Apply(u, s, ConnectCheck);
    StaysReachable(u, t, ConnectInsert(7));
    t := Apply(u, t, ConnectInsert(7));
    StaysReachable(u, t, SendMsg(7, 1200));
    t := Apply(u, t, SendMsg(7, 1200));
  }

  /** The single-owner rule, with its exact condition. */
  lemma SingleOwnerIffGuarded(u: Setup)
    ensures (forall s :: Reachable(u, s) ==> SingleOwner(s)) <==> !Overlaps(u)
  {
    if Overlaps(u) {
      var s := TwoOwnersWhenToggledEarly(u);
    } else {
      forall s | Reachable(u, s) ensures SingleOwner(s) { OneOwnerWhenGuarded(u, s); }
    }
  }

  // ----- which side owns the bytes -----

  /** The config has reached the hooks as Start meant it, and only that way. */
  predicate Informed(u: Setup, s: State) {
    && (s.progress != Pushed ==> s.config == ZEROED && s.toggle == None)
    && (s.progress != Loaded ==> s.sendmsgOn == u.sendmsgAttaches)
    && (s.progress in {QuicTried, Pushed} ==> s.quicOn == u.quicAttaches)
    && (s.progress == Pushed ==>
          TellsOwner(u, s.config) && (s.toggle.Some? ==> TellsOwner(u, s.toggle.value)))
  }

  predicate TellsOwner(u: Setup, c: Config) {
    c.trackUdp == u.trackUdp && c.udpSocketTx == (u.trackUdp && u.sendmsgAttaches)
  }

  lemma StaysInformed(u: Setup, s: State, step: Step)
    requires !u.earlyToggles && Informed(u, s) && Enabled(u, s, step)
    ensures Informed(u, Apply(u, s, step))
  {
  }

  lemma {:induction false} RunStaysInformed(u: Setup, s: State, steps: seq<Step>)
    requires !u.earlyToggles && Informed(u, s) && Possible(u, s, steps)
    ensures Informed(u, After(u, s, steps))
    decreases |steps|
  {
    if steps != [] {
      StaysInformed(u, s, steps[0]);
      RunStaysInformed(u, Apply(u, s, steps[0]), steps[1..]);
    }
  }

  /** Once the config has been pushed the bytes have exactly one owner while the agent is
      enabled: the socket path when UDP is tracked and its hook attached, for every
      connected cookie, and else the egress hook if that one attached. */
  lemma OwnerExactlyWhen(u: Setup, s: State, cookie: nat, n: nat)
    requires Reachable(u, s) && !u.earlyToggles && s.progress == Pushed
    ensures Enabled(u, s, EgressCheck) <==> s.config.enabled && u.quicAttaches && !(u.trackUdp && u.sendmsgAttaches)
    ensures Enabled(u, s, SendMsg(cookie, n)) <==>
            s.config.enabled && u.trackUdp && u.sendmsgAttaches && cookie in s.conns
    ensures Enabled(u, s, ConnectCheck) <==> s.config.enabled && u.trackUdp
  {
    var steps :| Possible(u, START, steps) && s == After(u, START, steps);
    RunStaysKept(u, START, steps);
    RunStaysInformed(u, START, steps);
  }

  /** The value of the latest toggle, or the configured one if the push came later. */
  function LatestFlag(u: Setup, before: bool, steps: seq<Step>): bool {
    if steps == [] then before
    else
      match steps[|steps| - 1]
      case PushConfig => u.enabled
      case ToggleWrite(enabled) => enabled
      case _ => LatestFlag(u, before, steps[..|steps| - 1])
  }

  /** The latest insert or release of the cookie was an insert. */
  predicate Connected(steps: seq<Step>, cookie: nat) {
    steps != [] && match steps[|steps| - 1]
      case ConnectInsert(c) => c == cookie || Connected(steps[..|steps| - 1], cookie)
      case Release(c) => c != cookie && Connected(steps[..|steps| - 1], cookie)
      case _ => Connected(steps[..|steps| - 1], cookie)
  }

  /** The bytes of the sends, and of the egress records, of a run. */
  function SocketBytes(steps: seq<Step>): nat {
    if steps == [] then 0
    else SocketBytes(steps[..|steps| - 1]) + match steps[|steps| - 1] case SendMsg(_, n) => n case _ => 0
  }

  function EgressBytes(steps: seq<Step>): nat {
    if steps == [] then 0
    else EgressBytes(steps[..|steps| - 1]) + match steps[|steps| - 1] case EgressRecord(n) => n case _ => 0
  }

  lemma {:induction false} LastStep(u: Setup, s: State, steps: seq<Step>)
    requires Possible(u, s, steps) && steps != []
    ensures var init, last := steps[..|steps| - 1], steps[|steps| - 1];
            && Possible(u, s, init) && Enabled(u, After(u, s, init), last)
            && After(u, s, steps) == Apply(u, After(u, s, init), last)
    decreases |steps|
  {
    if |steps| > 1 {
      LastStep(u, Apply(u, s, steps[0]), steps[1..]);
      assert steps[1..][..|steps| - 2] == steps[..|steps| - 1][1..];
    }
  }

  /** Every run records exactly the bytes its hooks were called with, and the flag is
      that of the latest toggle or push. */
  lemma {:induction false} RunsRecordExactly(u: Setup, steps: seq<Step>)
    requires Possible(u, START, steps)
    ensures var s := After(u, START, steps);
            && s.socketTx == SocketBytes(steps) && s.quicTx == EgressBytes(steps)
            && s.config.enabled == LatestFlag(u, false, steps)
            && forall cookie :: cookie in s.conns <==> Connected(steps, cookie)
  {
    if steps != [] {
      LastStep(u, START, steps);
      RunsRecordExactly(u, steps[..|steps| - 1]);
    }
  }
}
