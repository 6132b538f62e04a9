/** A connect attempt: the walk over a plan's routes, the fallback from one to the
    next, and the progress shown meanwhile. What ssh, the broker, the network and
    the user's cancel do is left open: every answer is possible at every step. */
module Routes {
  import opened ConnectFlows

  datatype Failure = BrokerUnknown | BrokerChanged | OtherFailure

  /** The user's decision about a broker's certificate. */
  predicate TrustDecision(f: Failure) {
    f == BrokerUnknown || f == BrokerChanged
  }

  /** What a walk has heard from the broker over ssh. */
  datatype Credentials = NotAsked | Fetched(offersQuic: bool) | FetchFailed

  // ----- what an attempt does, and in which order it may

  datatype Event = SawCancel
                 | Heard(answer: Credentials)
                 | Began(step: nat)
                 | SubstrateUp(step: nat, kind: RouteKind)
                 | TransportFailed(step: nat, failure: Failure)
                 | FellBack(step: nat)
                 | LinkedUp(step: nat)

  datatype Phase = Walking | Up(step: nat, kind: RouteKind) | Unusable(step: nat, kind: RouteKind)
                 | Online | Refused | Stopped

  datatype Watch = Watch(next: nat, phase: Phase) | Broken

  /** The rules: routes begin one after another; a substrate that is up ends the
      walk; only a broker route that could not be used resumes it, and not after a
      decision about trust; a cancel that was seen ends everything. */
  function Then(w: Watch, e: Event): Watch {
    if w.Broken? then Broken
    else match e
         case SawCancel => w.(phase := Stopped)
         case Heard(_) => if w.phase == Walking then w else Broken
         case Began(i) => if w.phase == Walking && i == w.next then Watch(i + 1, Walking) else Broken
         case SubstrateUp(i, k) => if w.phase == Walking && i + 1 == w.next then w.(phase := Up(i, k)) else Broken
         case TransportFailed(i, f) =>
           if w.phase.Up? && w.phase.step == i then
             w.(phase := if TrustDecision(f) then Refused else Unusable(i, w.phase.kind))
           else Broken
         case FellBack(i) => if w.phase == Unusable(i, Broker) then w.(phase := Walking) else Broken
         case LinkedUp(i) => if w.phase.Up? && w.phase.step == i then w.(phase := Online) else Broken
  }

  /** No route begins any more. */
  predicate Final(p: Phase) {
    p.Online? || p.Refused? || p.Stopped?
  }

  function Watched(trace: seq<Event>): Watch {
    if trace == [] then Watch(0, Walking) else Then(Watched(trace[..|trace| - 1]), trace[|trace| - 1])
  }

  lemma WatchedPush(trace: seq<Event>, e: Event)
    ensures Watched(trace + [e]) == Then(Watched(trace), e)
  {
    assert (trace + [e])[..|trace|] == trace;
  }

  predicate Orderly(trace: seq<Event>) {
    !Watched(trace).Broken?
  }

  lemma WatchedAt(trace: seq<Event>, n: nat)
    requires n < |trace|
    ensures Watched(trace[..n + 1]) == Then(Watched(trace[..n]), trace[n])
  {
    assert trace[..n + 1] == trace[..n] + [trace[n]];
    WatchedPush(trace[..n], trace[n]);
  }

  lemma {:induction false} PrefixOrderly(trace: seq<Event>, n: nat)
    requires n <= |trace| && Orderly(trace)
    ensures Orderly(trace[..n])
    decreases |trace| - n
  {
    if n == |trace| {
      assert trace[..n] == trace;
    } else {
      PrefixOrderly(trace, n + 1);
      WatchedAt(trace, n);
    }
  }

  /** The next route's number never goes down, and what is over stays over. */
  lemma {:induction false} WatchMoves(trace: seq<Event>, m: nat, n: nat)
    requires m <= n <= |trace| && Orderly(trace)
    ensures Orderly(trace[..m]) && Orderly(trace[..n])
    ensures Watched(trace[..m]).next <= Watched(trace[..n]).next
    ensures Final(Watched(trace[..m]).phase) ==> Final(Watched(trace[..n]).phase)
    decreases n - m
  {
    PrefixOrderly(trace, m);
    PrefixOrderly(trace, n);
    if m < n {
      PrefixOrderly(trace, m + 1);
      WatchedAt(trace, m);
      WatchMoves(trace, m + 1, n);
    }
  }

  /** Routes begin in strictly increasing order, each at most once. */
  lemma BeginsIncrease(trace: seq<Event>, i: nat, j: nat)
    requires Orderly(trace) && i < j < |trace| && trace[i].Began? && trace[j].Began?
    ensures trace[i].step < trace[j].step
  {
    WatchMoves(trace, i + 1, j);
    WatchMoves(trace, j, j + 1);
    WatchedAt(trace, i);
    WatchedAt(trace, j);
  }

  /** No route is passed over: one begins only after all before it. */
  lemma {:induction false} BeginsAll(trace: seq<Event>, n: nat, step: nat)
    requires Orderly(trace) && n <= |trace| && Orderly(trace[..n]) && step < Watched(trace[..n]).next
    ensures exists i :: 0 <= i < n && trace[i] == Began(step)
    decreases n
  {
    if n > 0 {
      PrefixOrderly(trace, n - 1);
      WatchedAt(trace, n - 1);
      if trace[n - 1] != Began(step) {
        BeginsAll(trace, n - 1, step);
      }
    }
  }

  /** Nothing begins once a cancel was seen, a certificate was turned down, or the
      transport was connected. */
  lemma NothingBegins(trace: seq<Event>, i: nat, j: nat)
    requires Orderly(trace) && i < j < |trace|
    requires trace[i].SawCancel? || trace[i].LinkedUp? || (trace[i].TransportFailed? && TrustDecision(trace[i].failure))
    ensures !trace[j].Began?
  {
    WatchMoves(trace, i, i + 1);
    WatchMoves(trace, i + 1, j);
    WatchMoves(trace, j, j + 1);
    WatchedAt(trace, i);
    WatchedAt(trace, j);
  }

  /** After a route's substrate came up, another route begins only if that route was
      a broker and was given up. */
  lemma {:induction false} OnlyBrokersFallBack(trace: seq<Event>, i: nat, j: nat)
    requires Orderly(trace) && i < j <= |trace| && trace[i].SubstrateUp?
    ensures Orderly(trace[..j])
    ensures var (a, k, w) := (trace[i].step, trace[i].kind, Watched(trace[..j]));
            || w.phase == Up(a, k) || w.phase == Unusable(a, k) || Final(w.phase)
            || (k == Broker && exists m :: i < m < j && trace[m] == FellBack(a))
    decreases j
  {
    PrefixOrderly(trace, j);
    PrefixOrderly(trace, j - 1);
    WatchedAt(trace, j - 1);
    if j > i + 1 {
      OnlyBrokersFallBack(trace, i, j - 1);
      assert trace[j - 1].FellBack? ==> trace[j - 1] == FellBack(trace[j - 1].step);
    }
  }

  lemma BeginsAfterSubstrate(trace: seq<Event>, i: nat, j: nat)
    requires Orderly(trace) && i < j < |trace| && trace[i].SubstrateUp? && trace[j].Began?
    ensures trace[i].kind == Broker && exists m :: i < m < j && trace[m] == FellBack(trace[i].step)
  {
    OnlyBrokersFallBack(trace, i, j);
    PrefixOrderly(trace, j + 1);
    WatchedAt(trace, j);
  }

  // ----- QUIC only where it is offered

  /** What the broker said last. */
  function LastHeard(trace: seq<Event>): Credentials {
    if trace == [] then NotAsked
    else
      var e := trace[|trace| - 1];
      if e.Heard? then e.answer else LastHeard(trace[..|trace| - 1])
  }

  /** A broker over QUIC comes up only where the broker last said it offers that. */
  predicate Allowed(plan: seq<RouteStep>, before: seq<Event>, e: Event) {
    e.SubstrateUp? && e.kind == Broker && e.step < |plan| && plan[e.step].quic ==> LastHeard(before) == Fetched(true)
  }

  predicate QuicOffered(plan: seq<RouteStep>, trace: seq<Event>) {
    forall i :: 0 <= i < |trace| ==> Allowed(plan, trace[..i], trace[i])
  }

  lemma TracePush(plan: seq<RouteStep>, trace: seq<Event>, e: Event)
    ensures LastHeard(trace + [e]) == if e.Heard? then e.answer else LastHeard(trace)
    ensures QuicOffered(plan, trace + [e]) <==> QuicOffered(plan, trace) && Allowed(plan, trace, e)
  {
    var longer := trace + [e];
    assert longer[..|trace|] == trace && longer[|trace|] == e;
    hide Allowed;
    if QuicOffered(plan, trace) && Allowed(plan, trace, e) {
      forall i | 0 <= i < |longer| ensures Allowed(plan, longer[..i], longer[i]) {
        assert i < |trace| ==> longer[..i] == trace[..i] && longer[i] == trace[i];
      }
    }
    if QuicOffered(plan, longer) {
      forall i | 0 <= i < |trace| ensures Allowed(plan, trace[..i], trace[i]) {
        assert longer[..i] == trace[..i] && longer[i] == trace[i];
      }
    }
  }

  /** Nothing came up since. */
  predicate NoneUp(before: seq<Event>, after: seq<Event>) {
    before <= after && forall i :: |before| <= i < |after| ==> !after[i].SubstrateUp?
  }

  lemma {:induction false} NoneUpOffered(plan: seq<RouteStep>, before: seq<Event>, after: seq<Event>)
    requires NoneUp(before, after) && QuicOffered(plan, before)
    ensures QuicOffered(plan, after)
    decreases |after|
  {
    if |after| == |before| {
      assert after == before;
    } else {
      var front := after[..|after| - 1];
      NoneUpOffered(plan, before, front);
      TracePush(plan, front, after[|after| - 1]);
      assert front + [after[|after| - 1]] == after;
    }
  }

  /** The broker said this at j, and nothing since. */
  predicate SaidAt(trace: seq<Event>, j: nat, answer: Credentials) {
    j < |trace| && trace[j] == Heard(answer) && forall k :: j < k < |trace| ==> !trace[k].Heard?
  }

  lemma {:induction false} LastHeardAt(trace: seq<Event>)
    requires LastHeard(trace) != NotAsked
    ensures exists j: nat :: SaidAt(trace, j, LastHeard(trace))
    decreases |trace|
  {
    var n := |trace|;
    if trace[n - 1].Heard? {
      assert SaidAt(trace, n - 1, LastHeard(trace));
    } else {
      LastHeardAt(trace[..n - 1]);
      var j: nat :| SaidAt(trace[..n - 1], j, LastHeard(trace[..n - 1]));
      assert SaidAt(trace, j, LastHeard(trace));
    }
  }

  /** Wherever a QUIC broker came up, the broker had said before that it offers QUIC, and
      nothing else since. */
  lemma QuicHeard(plan: seq<RouteStep>, trace: seq<Event>, i: nat)
    requires QuicOffered(plan, trace) && i < |trace| && trace[i].SubstrateUp? && trace[i].kind == Broker
    requires trace[i].step < |plan| && plan[trace[i].step].quic
    ensures exists j: nat :: SaidAt(trace[..i], j, Fetched(true))
  {
    hide SaidAt, LastHeard;
    assert Allowed(plan, trace[..i], trace[i]);
    LastHeardAt(trace[..i]);
  }

  // ----- the stages an attempt enters

  datatype Entry = Entry(step: nat, kind: StageKind)

  /** Only stages that are shown for their route are entered, and the fonts'. */
  predicate Listed(plan: seq<RouteStep>, entered: seq<Entry>) {
    forall e <- entered :: e.step < |plan| && (e.kind == FetchingFonts || e.kind in RouteStages(plan[e.step]))
  }

  /** Every stage shown for a route has been entered, up to a rank. */
  predicate Through(plan: seq<RouteStep>, entered: seq<Entry>, step: nat, rank: int)
    requires step < |plan|
  {
    forall kind <- RouteStages(plan[step]) :: Rank(kind) <= rank ==> Entry(step, kind) in entered
  }

  /** The stages of a route up to the point where its substrate is up. */
  lemma SubstrateStages(plan: seq<RouteStep>, entered: seq<Entry>, step: nat)
    requires step < |plan|
    ensures var (route, kinds) := (plan[step], RouteStages(plan[step]));
            match route.kind
            case Broker => ContactingBroker in kinds && (Entry(step, ContactingBroker) in entered ==> Through(plan, entered, step, 0))
            case Direct => Through(plan, entered, step, 2)
            case Tunnel =>
              && (route.hasCookie || FetchingCookie in kinds) && StartingTunnel in kinds && WaitingForForward in kinds
              && (Entry(step, StartingTunnel) in entered && Entry(step, WaitingForForward) in entered
                  && (route.hasCookie || Entry(step, FetchingCookie) in entered)
                  ==> Through(plan, entered, step, 2))
  {
  }

  /** And those after it. */
  lemma TransportStages(plan: seq<RouteStep>, before: seq<Entry>, entered: seq<Entry>, step: nat)
    requires step < |plan| && before <= entered
    ensures var (route, kinds) := (plan[step], RouteStages(plan[step]));
            && WaitingForHandshake in kinds && RequestingDisplay in kinds
            && (Through(plan, before, step, 3) && Entry(step, WaitingForHandshake) in entered ==> Through(plan, entered, step, 4))
            && match route.kind
               case Broker =>
                 && Authenticating in kinds
                 && (Through(plan, before, step, 0) && Entry(step, Authenticating) in entered ==> Through(plan, entered, step, 3))
               case _ =>
                 && ConnectingTransport in kinds
                 && (Through(plan, before, step, 2) && Entry(step, ConnectingTransport) in entered ==> Through(plan, entered, step, 3))
  {
  }

  lemma ThroughMore(plan: seq<RouteStep>, before: seq<Entry>, entered: seq<Entry>, step: nat, rank: int)
    requires step < |plan| && Through(plan, before, step, rank) && before <= entered
    ensures Through(plan, entered, step, rank)
  {
  }

  // ----- the world outside

  class World {
    /** Whether the cancel token is set; it is never cleared. */
    var token: bool
    ghost var trace: seq<Event>
    /** How many times the broker's credentials were asked for over ssh. */
    ghost var fetches: nat

    constructor ()
      ensures trace == [] && fetches == 0
    {
      token := *;
      trace, fetches := [], 0;
    }

    /** A look at the token, which another thread may set at any time. */
    method Cancelled() returns (seen: bool)
      modifies `token, `trace
      ensures seen == token && (old(token) ==> seen)
      ensures trace == if seen then old(trace) + [SawCancel] else old(trace)
      ensures Watched(trace) == if seen then Then(Watched(old(trace)), SawCancel) else Watched(old(trace))
    {
      if !token {
        token := *;
      }
      seen := token;
      if seen {
        WatchedPush(trace, SawCancel);
        trace := trace + [SawCancel];
      }
    }

    ghost method Record(e: Event)
      modifies `trace
      ensures trace == old(trace) + [e] && Watched(trace) == Then(Watched(old(trace)), e)
    {
      WatchedPush(trace, e);
      trace := trace + [e];
    }

    /** Any outcome of something outside. */
    method Succeeds() returns (ok: bool)
    {
      ok := *;
    }

    method FetchCredentials() returns (ok: bool, offersQuic: bool)
      modifies `fetches, `trace
      ensures fetches == old(fetches) + 1
      ensures var e := Heard(if ok then Fetched(offersQuic) else FetchFailed);
              trace == old(trace) + [e] && Watched(trace) == Then(Watched(old(trace)), e)
    {
      fetches := fetches + 1;
      ok, offersQuic := *, *;
      Record(Heard(if ok then Fetched(offersQuic) else FetchFailed));
    }

    method ConnectFailure() returns (f: Failure)
    {
      var unknown, changed := *, *;
      f := if unknown then BrokerUnknown else if changed then BrokerChanged else OtherFailure;
    }
  }

  /** One repaint: what the user saw. */
  datatype Shown = Shown(state: FlowState, stages: seq<Stage>)

  /** At most one stage runs, and none once the attempt is settled. */
  predicate SoundShow(s: Shown) {
    OneActive(s.stages) && (s.state == Connected || s.state == FlowFailed || s.state == Disconnecting ==> NoneActive(s.stages))
  }

  class FlowBridge {
    const flow: ConnectFlow
    const world: World
    ghost const plan: seq<RouteStep>
    var readyIndex: nat
    ghost var shown: seq<Shown>
    ghost var entered: seq<Entry>

    constructor (flow: ConnectFlow, world: World, ghost plan: seq<RouteStep>)
      ensures this.flow == flow && this.world == world && this.plan == plan && shown == [] && entered == []
    {
      this.flow, this.world, this.plan, readyIndex, shown, entered := flow, world, plan, 0, [], [];
    }

    ghost predicate Sound()
      reads this
    {
      (forall i :: 0 <= i < |shown| ==> SoundShow(shown[i])) && Listed(plan, entered)
    }

    method Tick()
      requires Sound() && SoundShow(Shown(flow.state, flow.stages))
      modifies `shown
      ensures Sound() && shown == old(shown) + [Shown(flow.state, flow.stages)]
    {
      shown := shown + [Shown(flow.state, flow.stages)];
    }

    method OnStepBegin(index: nat)
      requires Sound() && Resting(flow.stages) && Watched(world.trace) == Watch(index, Walking)
      modifies `shown, flow`state, flow`fellBack, world`trace
      ensures Sound() && flow.state == Connecting && Watched(world.trace) == Watch(index + 1, Walking)
      ensures world.trace == old(world.trace) + [Began(index)]
    {
      world.Record(Began(index));
      flow.BeginStep(index);
      Tick();
    }

    /** A stage of the step starts: `on_phase`, and the driver's own stages. */
    method Enter(index: nat, kind: StageKind, ghost rank: nat)
      requires Sound() && flow.state == Connecting && Running(flow.stages, index, rank) && rank <= Rank(kind)
      requires index < |plan| && (kind == FetchingFonts || kind in RouteStages(plan[index]))
      modifies `shown, `entered, flow`stages, flow`state
      ensures Sound() && flow.state == Connecting && Running(flow.stages, index, Rank(kind))
      ensures entered == old(entered) + [Entry(index, kind)]
    {
      entered := entered + [Entry(index, kind)];
      RunsFurther(flow.stages, index, rank, Rank(kind));
      flow.Enter(index, kind);
      Tick();
    }

    method OnStepFailed(index: nat, ghost rank: nat)
      requires Sound() && flow.state == Connecting && Running(flow.stages, index, rank)
      modifies `shown, flow`stages
      ensures Sound() && Resting(flow.stages)
    {
      flow.FailStep(index, rank);
      Tick();
    }

    method OnStepReady(index: nat, kind: RouteKind)
      requires Watched(world.trace) == Watch(index + 1, Walking)
      modifies `readyIndex, world`trace
      ensures readyIndex == index && Watched(world.trace) == Watch(index + 1, Up(index, kind))
      ensures world.trace == old(world.trace) + [SubstrateUp(index, kind)]
    {
      world.Record(SubstrateUp(index, kind));
      readyIndex := index;
    }
  }

  // ----- the walk

  /** Between two routes of the walk: ready for the next, or stopped by a cancel. */
  ghost predicate AtStep(bridge: FlowBridge, index: nat)
    reads bridge, bridge.flow, bridge.world
  {
    var w := Watched(bridge.world.trace);
    && bridge.Sound() && Resting(bridge.flow.stages)
    && (w == Watch(index, Walking) || (w.Watch? && w.phase == Stopped && bridge.world.token))
  }

  /** The walk stopped with a route's substrate up. */
  ghost predicate RouteUp(bridge: FlowBridge, plan: seq<RouteStep>, kind: RouteKind)
    reads bridge, bridge.flow, bridge.world
  {
    var index := bridge.readyIndex;
    var rank := if kind == Broker then 0 else 2;
    && bridge.Sound() && bridge.flow.state == Connecting && bridge.plan == plan
    && Running(bridge.flow.stages, index, rank)
    && index < |plan| && plan[index].kind == kind && Through(plan, bridge.entered, index, rank)
    && Watched(bridge.world.trace) == Watch(index + 1, Up(index, kind))
  }

  /** The tunnel route; true if the tunnel is up. */
  method TryTunnel(index: nat, hasCookie: bool, bridge: FlowBridge) returns (up: bool)
    requires bridge.Sound() && bridge.flow.state == Connecting && Resting(bridge.flow.stages)
    requires index < |bridge.plan| && bridge.plan[index].kind == Tunnel && bridge.plan[index].hasCookie == hasCookie
    modifies bridge`shown, bridge`entered, bridge.flow`stages, bridge.flow`state
    ensures bridge.Sound() && bridge.flow.state == Connecting
    ensures if up then Running(bridge.flow.stages, index, 2) && Through(bridge.plan, bridge.entered, index, 2)
            else Resting(bridge.flow.stages)
  {
    hide RouteStages, Through, Running, Resting, Listed;
    SubstrateStages(bridge.plan, bridge.entered, index);
    RestingRuns(bridge.flow.stages, index, 0);
    if !hasCookie {
      bridge.Enter(index, FetchingCookie, 0);
      var fetched := bridge.world.Succeeds();
      if !fetched {
        bridge.OnStepFailed(index, 0);
        return false;
      }
    }
    bridge.Enter(index, StartingTunnel, 0);
    up := bridge.world.Succeeds();
    if !up {
      bridge.OnStepFailed(index, 1);
      return;
    }
    bridge.Enter(index, WaitingForForward, 1);
    up := bridge.world.Succeeds();
    SubstrateStages(bridge.plan, bridge.entered, index);
    if !up {
      bridge.OnStepFailed(index, 2);
    }
  }

  /** The broker route; true if it has credentials and, over QUIC, an offer. */
  method TryBroker(index: nat, quic: bool, before: Credentials, bridge: FlowBridge) returns (up: bool, after: Credentials)
    requires bridge.Sound() && bridge.flow.state == Connecting && Resting(bridge.flow.stages)
    requires Watched(bridge.world.trace) == Watch(index + 1, Walking)
    requires index < |bridge.plan| && bridge.plan[index].kind == Broker
    requires before != NotAsked ==> LastHeard(bridge.world.trace) == before
    modifies bridge`shown, bridge`entered, bridge.flow`stages, bridge.flow`state, bridge.world
    ensures bridge.Sound() && bridge.flow.state == Connecting && NoneUp(old(bridge.world.trace), bridge.world.trace)
    ensures up <==> after.Fetched? && (!quic || after.offersQuic)
    ensures if after == NotAsked then before == NotAsked else LastHeard(bridge.world.trace) == after
    ensures before != NotAsked ==> after == before
    ensures old(bridge.world.token) ==> bridge.world.token
    ensures bridge.world.fetches == old(bridge.world.fetches) + (if before == NotAsked then 1 else 0)
    ensures if up then
              && Running(bridge.flow.stages, index, 0) && Through(bridge.plan, bridge.entered, index, 0)
              && Watched(bridge.world.trace) == Watch(index + 1, Walking)
            else AtStep(bridge, index + 1) && (after == NotAsked ==> Watched(bridge.world.trace).phase == Stopped)
  {
    hide Running, Resting, RouteStages, Through, Listed;
    after := before;
    SubstrateStages(bridge.plan, bridge.entered, index);
    RestingRuns(bridge.flow.stages, index, 0);
    bridge.Enter(index, ContactingBroker, 0);
    SubstrateStages(bridge.plan, bridge.entered, index);
    if before == FetchFailed {
      bridge.OnStepFailed(index, 0);
      return false, before;
    }
    if before == NotAsked {
      var got, offers := bridge.world.FetchCredentials();
      if !got {
        // only a fetch nobody stopped says anything about the broker
        var seen := bridge.world.Cancelled();
        if !seen {
          after := FetchFailed;
        }
        bridge.OnStepFailed(index, 0);
        return false, after;
      }
      after := Fetched(offers);
    }
    if quic && !after.offersQuic {
      bridge.OnStepFailed(index, 0);
      return false, after;
    }
    up := true;
  }

  /** `open_connection`: brings up the first route from firstStep on that comes up.
      The broker's credentials are asked for at most once. */
  method OpenConnection(plan: seq<RouteStep>, firstStep: nat, bridge: FlowBridge) returns (ok: bool, kind: RouteKind)
    requires bridge.Sound() && Resting(bridge.flow.stages) && firstStep <= |plan| && bridge.plan == plan
    requires Watched(bridge.world.trace) == Watch(firstStep, Walking) && QuicOffered(plan, bridge.world.trace)
    modifies bridge, bridge.flow, bridge.world
    ensures QuicOffered(plan, bridge.world.trace)
    ensures old(bridge.world.trace) <= bridge.world.trace && (old(bridge.world.token) ==> bridge.world.token)
    ensures bridge.world.fetches <= old(bridge.world.fetches) + 1
    ensures if ok then RouteUp(bridge, plan, kind) && firstStep <= bridge.readyIndex else AtStep(bridge, |plan|)
  {
    hide Running, Resting, Watched, InOrder, OneActive, RouteStages, Through, QuicOffered, LastHeard, Listed, SoundShow;
    var credentials := NotAsked;
    var index := firstStep;
    while index < |plan|
      invariant firstStep <= index <= |plan| && AtStep(bridge, index)
      invariant QuicOffered(plan, bridge.world.trace) && (credentials != NotAsked ==> LastHeard(bridge.world.trace) == credentials)
      invariant old(bridge.world.trace) <= bridge.world.trace && (old(bridge.world.token) ==> bridge.world.token)
      invariant bridge.world.fetches <= old(bridge.world.fetches) + 1
      invariant bridge.world.fetches == old(bridge.world.fetches) || credentials != NotAsked
                || Watched(bridge.world.trace).phase == Stopped
    {
      ghost var was := bridge.world.trace;
      var stop := bridge.world.Cancelled();
      NoneUpOffered(plan, was, bridge.world.trace);
      if stop {
        break;
      }
      TracePush(plan, bridge.world.trace, Began(index));
      bridge.OnStepBegin(index);
      was := bridge.world.trace;
      var step := plan[index];
      match step.kind
      case Broker =>
        var up;
        up, credentials := TryBroker(index, step.quic, credentials, bridge);
        NoneUpOffered(plan, was, bridge.world.trace);
        if !up {
          index := index + 1;
          continue;
        }
        TracePush(plan, bridge.world.trace, SubstrateUp(index, Broker));
        bridge.OnStepReady(index, Broker);
        return true, Broker;
      case Direct =>
        RestingRuns(bridge.flow.stages, index, 2);
        SubstrateStages(plan, bridge.entered, index);
        TracePush(plan, bridge.world.trace, SubstrateUp(index, Direct));
        bridge.OnStepReady(index, Direct);
        return true, Direct;
      case Tunnel =>
        var up := TryTunnel(index, step.hasCookie, bridge);
        if !up {
          index := index + 1;
          continue;
        }
        TracePush(plan, bridge.world.trace, SubstrateUp(index, Tunnel));
        bridge.OnStepReady(index, Tunnel);
        return true, Tunnel;
    }
    return false, Broker;
  }

  // ----- the driver

  datatype Outcome = Succeeded | WasCancelled | GaveUp

  /** How an attempt ends: the flow says so and no stage is left running. */
  ghost predicate Settled(bridge: FlowBridge, outcome: Outcome)
    reads bridge, bridge.flow
  {
    && bridge.Sound() && Resting(bridge.flow.stages)
    && bridge.flow.state == match outcome
                            case Succeeded => Connected
                            case WasCancelled => Disconnecting
                            case GaveUp => FlowFailed
  }

  /** Why an attempt ends so: it is online; a cancel was seen; or every route failed,
      a certificate was turned down, the last usable route's transport failed, or the
      server did not answer. */
  predicate Explained(plan: seq<RouteStep>, w: Watch, outcome: Outcome) {
    w.Watch? &&
    match outcome
    case Succeeded => w.phase == Online
    case WasCancelled => w.phase == Stopped
    case GaveUp =>
      || w == Watch(|plan|, Walking) || w.phase == Refused || w.phase == Online
      || (w.phase.Unusable? && w.next == w.phase.step + 1 && (w.phase.kind != Broker || w.next == |plan|))
  }

  method FinishCancelled(bridge: FlowBridge) returns (outcome: Outcome)
    requires bridge.Sound() && InOrder(bridge.flow.stages) && OneActive(bridge.flow.stages)
    modifies bridge`shown, bridge.flow`stages, bridge.flow`state
    ensures outcome == WasCancelled && Settled(bridge, WasCancelled)
  {
    bridge.flow.BeginDisconnect();
    bridge.Tick();
    return WasCancelled;
  }

  method FinishFailed(bridge: FlowBridge) returns (outcome: Outcome)
    requires bridge.Sound() && InOrder(bridge.flow.stages) && OneActive(bridge.flow.stages)
    modifies bridge`shown, bridge.flow`stages, bridge.flow`state
    ensures outcome == GaveUp && Settled(bridge, GaveUp)
  {
    bridge.flow.Fail();
    bridge.Tick();
    return GaveUp;
  }

  /** What the transport stage came to. */
  datatype Transport = Opened | Abandoned(outcome: Outcome) | FallBack

  /** Makes and connects the transport of the route that is up, and decides whether
      a failure leads to the next route. */
  method TryTransport(plan: seq<RouteStep>, kind: RouteKind, bridge: FlowBridge) returns (t: Transport)
    requires RouteUp(bridge, plan, kind)
    modifies bridge`shown, bridge`entered, bridge.flow`stages, bridge.flow`state, bridge.world`token, bridge.world`trace
    ensures NoneUp(old(bridge.world.trace), bridge.world.trace) && (old(bridge.world.token) ==> bridge.world.token)
    ensures bridge.Sound()
    ensures match t
            case Opened => && bridge.flow.state == Connecting && Running(bridge.flow.stages, bridge.readyIndex, 3)
                           && Through(plan, bridge.entered, bridge.readyIndex, 3)
                           && Watched(bridge.world.trace) == Watch(bridge.readyIndex + 1, Online)
            case Abandoned(outcome) => Settled(bridge, outcome) && outcome != Succeeded
                                       && Explained(plan, Watched(bridge.world.trace), outcome)
                                       && (outcome == WasCancelled ==> bridge.world.token)
            case FallBack => && kind == Broker && bridge.readyIndex + 1 < |plan| && Resting(bridge.flow.stages)
                             && Watched(bridge.world.trace) == Watch(bridge.readyIndex + 1, Walking)
  {
    hide Running, Resting, Then, RouteStages, Through, Listed, SoundShow, NoneActive, InOrder, OneActive, Rank;
    var index := bridge.readyIndex;
    var canFallBack := kind == Broker && index + 1 < |plan|;
    BeginTransport(kind, bridge);
    var answer := MakeTransport(index, kind, bridge.world);
    match answer
    case Linked => t := Opened;
    case Interrupted =>
      RunsAtMostOne(bridge.flow.stages, index, 3);
      var outcome := FinishCancelled(bridge);
      t := Abandoned(outcome);
    case Unlinked(failure) => t := LoseTransport(plan, kind, canFallBack, failure, bridge);
  }

  /** What making and connecting a transport came to. */
  datatype Answer = Linked | Interrupted | Unlinked(failure: Failure)

  method MakeTransport(index: nat, kind: RouteKind, world: World) returns (answer: Answer)
    requires Watched(world.trace) == Watch(index + 1, Up(index, kind))
    modifies world`token, world`trace
    ensures NoneUp(old(world.trace), world.trace) && (old(world.token) ==> world.token)
    ensures answer.Interrupted? ==> world.token
    ensures Watched(world.trace) ==
            Watch(index + 1, match answer
                             case Linked => Online
                             case Interrupted => Stopped
                             case Unlinked(failure) => if TrustDecision(failure) then Refused else Unusable(index, kind))
  {
    hide Then, Watched;
    TransportRules(index, kind);
    var failure := OtherFailure;
    var made := world.Succeeds();
    if made {
      var linked := world.Succeeds();
      if linked {
        world.Record(LinkedUp(index));
        return Linked;
      }
      var stop := world.Cancelled();
      if stop {
        return Interrupted;
      }
      failure := world.ConnectFailure();
    }
    world.Record(TransportFailed(index, failure));
    return Unlinked(failure);
  }

  /** What a transport that failed leads to: the next route, or the end. */
  method LoseTransport(plan: seq<RouteStep>, kind: RouteKind, canFallBack: bool, failure: Failure, bridge: FlowBridge)
    returns (t: Transport)
    requires bridge.Sound() && bridge.flow.state == Connecting && Running(bridge.flow.stages, bridge.readyIndex, 3)
    requires bridge.readyIndex < |plan| && canFallBack == (kind == Broker && bridge.readyIndex + 1 < |plan|)
    requires var failed := if TrustDecision(failure) then Refused else Unusable(bridge.readyIndex, kind);
             Watched(bridge.world.trace) == Watch(bridge.readyIndex + 1, failed)
    modifies bridge`shown, bridge.flow`stages, bridge.flow`state, bridge.world`trace
    ensures NoneUp(old(bridge.world.trace), bridge.world.trace) && bridge.Sound()
    ensures if canFallBack && !TrustDecision(failure)
            then && t == FallBack && Resting(bridge.flow.stages)
                 && Watched(bridge.world.trace) == Watch(bridge.readyIndex + 1, Walking)
            else && t == Abandoned(GaveUp) && Settled(bridge, GaveUp)
                 && Explained(plan, Watched(bridge.world.trace), GaveUp)
  {
    hide Running, Resting, Then;
    var index := bridge.readyIndex;
    TransportRules(index, kind);
    if canFallBack && !TrustDecision(failure) {
      bridge.OnStepFailed(index, 3);
      bridge.world.Record(FellBack(index));
      return FallBack;
    }
    RunsAtMostOne(bridge.flow.stages, index, 3);
    var outcome := FinishFailed(bridge);
    return Abandoned(outcome);
  }

  method BeginTransport(kind: RouteKind, bridge: FlowBridge)
    requires bridge.Sound() && bridge.flow.state == Connecting
    requires Running(bridge.flow.stages, bridge.readyIndex, if kind == Broker then 0 else 2)
    requires bridge.readyIndex < |bridge.plan| && bridge.plan[bridge.readyIndex].kind == kind
    requires Through(bridge.plan, bridge.entered, bridge.readyIndex, if kind == Broker then 0 else 2)
    modifies bridge`shown, bridge`entered, bridge.flow`stages, bridge.flow`state
    ensures bridge.Sound() && bridge.flow.state == Connecting && Running(bridge.flow.stages, bridge.readyIndex, 3)
    ensures Through(bridge.plan, bridge.entered, bridge.readyIndex, 3)
  {
    hide RouteStages, Through, Running, Listed;
    var index := bridge.readyIndex;
    ghost var was := bridge.entered;
    TransportStages(bridge.plan, was, was, index);
    if kind == Broker {
      bridge.Enter(index, Authenticating, 0);
      RunsFurther(bridge.flow.stages, index, 1, 3);
    } else {
      bridge.Enter(index, ConnectingTransport, 2);
    }
    TransportStages(bridge.plan, was, bridge.entered, index);
  }

  lemma RunsAtMostOne(stages: seq<Stage>, step: nat, rank: nat)
    requires Running(stages, step, rank)
    ensures InOrder(stages) && OneActive(stages)
  {
  }

  lemma TransportRules(i: nat, k: RouteKind)
    ensures var up := Watch(i + 1, Up(i, k));
            && Then(up, LinkedUp(i)) == Watch(i + 1, Online) && Then(up, SawCancel) == Watch(i + 1, Stopped)
            && (forall f :: Then(up, TransportFailed(i, f)) == Watch(i + 1, if TrustDecision(f) then Refused else Unusable(i, k)))
            && (k == Broker ==> Then(Watch(i + 1, Unusable(i, k)), FellBack(i)) == Watch(i + 1, Walking))
  {
  }

  /** What an exchange with the server leaves: while it goes well the attempt stays
      online, a failure ends it, and a cancel that was seen ends it as cancelled. */
  ghost predicate Exchanged(bridge: FlowBridge, was: Watch, outcome: Outcome, rank: nat)
    reads bridge, bridge.flow, bridge.world
  {
    && Watched(bridge.world.trace) == (if outcome == WasCancelled then Then(was, SawCancel) else was)
    && (outcome == WasCancelled ==> bridge.world.token)
    && if outcome == Succeeded then
         bridge.Sound() && bridge.flow.state == Connecting && Running(bridge.flow.stages, bridge.readyIndex, rank)
       else Settled(bridge, outcome)
  }

  /** A failure after a cancel was seen is the cancel's. */
  method Answered(bridge: FlowBridge, ghost rank: nat) returns (outcome: Outcome)
    requires bridge.Sound() && bridge.flow.state == Connecting && Running(bridge.flow.stages, bridge.readyIndex, rank)
    modifies bridge`shown, bridge.flow`stages, bridge.flow`state, bridge.world`token, bridge.world`trace
    ensures NoneUp(old(bridge.world.trace), bridge.world.trace) && (old(bridge.world.token) ==> bridge.world.token)
    ensures Exchanged(bridge, old(Watched(bridge.world.trace)), outcome, rank)
  {
    var answered := bridge.world.Succeeds();
    if answered {
      return Succeeded;
    }
    RunsAtMostOne(bridge.flow.stages, bridge.readyIndex, rank);
    hide Running, Resting, Then;
    var seen := bridge.world.Cancelled();
    if seen {
      outcome := FinishCancelled(bridge);
    } else {
      outcome := FinishFailed(bridge);
    }
  }

  /** The handshake on a connected transport: the server may ask for the display any
      number of times. */
  method Handshake(bridge: FlowBridge) returns (outcome: Outcome)
    requires bridge.Sound() && bridge.flow.state == Connecting && Running(bridge.flow.stages, bridge.readyIndex, 3)
    requires bridge.readyIndex < |bridge.plan| && Through(bridge.plan, bridge.entered, bridge.readyIndex, 3)
    modifies bridge`shown, bridge`entered, bridge.flow`stages, bridge.flow`state, bridge.world`token, bridge.world`trace
    ensures NoneUp(old(bridge.world.trace), bridge.world.trace) && (old(bridge.world.token) ==> bridge.world.token)
    ensures Through(bridge.plan, bridge.entered, bridge.readyIndex, 4)
    ensures Exchanged(bridge, old(Watched(bridge.world.trace)), outcome, 5)
  {
    hide Running, Resting, Then, RouteStages, Through, Listed;
    var index := bridge.readyIndex;
    ghost var was := bridge.entered;
    TransportStages(bridge.plan, was, was, index);
    bridge.Enter(index, WaitingForHandshake, 3);
    TransportStages(bridge.plan, was, bridge.entered, index);
    RunsFurther(bridge.flow.stages, index, 4, 5);
    var requests: nat := *;
    while requests > 0
      invariant bridge.Sound() && bridge.flow.state == Connecting && Running(bridge.flow.stages, index, 5)
      invariant bridge.world.trace == old(bridge.world.trace) && bridge.world.token == old(bridge.world.token)
      invariant Through(bridge.plan, bridge.entered, index, 4)
    {
      was := bridge.entered;
      bridge.Enter(index, RequestingDisplay, 5);
      ThroughMore(bridge.plan, was, bridge.entered, index, 4);
      requests := requests - 1;
    }
    outcome := Answered(bridge, 5);
  }

  /** The server's fonts, over the ssh the route came by. */
  method FetchFonts(bridge: FlowBridge) returns (outcome: Outcome)
    requires bridge.Sound() && bridge.flow.state == Connecting && Running(bridge.flow.stages, bridge.readyIndex, 5)
    requires bridge.readyIndex < |bridge.plan|
    modifies bridge`shown, bridge`entered, bridge.flow`stages, bridge.flow`state, bridge.world`token, bridge.world`trace
    ensures NoneUp(old(bridge.world.trace), bridge.world.trace) && (old(bridge.world.token) ==> bridge.world.token)
    ensures old(bridge.entered) <= bridge.entered
    ensures Exchanged(bridge, old(Watched(bridge.world.trace)), outcome, 6)
  {
    hide Running, Resting, Then, RouteStages, Listed;
    var index := bridge.readyIndex;
    outcome := Answered(bridge, 5);
    if outcome != Succeeded {
      return;
    }
    RunsFurther(bridge.flow.stages, index, 5, 6);
    RunsAtMostOne(bridge.flow.stages, index, 6);
    var wanted := bridge.world.Succeeds();
    if wanted {
      bridge.flow.AddStage(index, FetchingFonts);
      bridge.Enter(index, FetchingFonts, 6);
      var seen := bridge.world.Cancelled();
      if seen {
        RunsAtMostOne(bridge.flow.stages, index, 6);
        outcome := FinishCancelled(bridge);
      }
    }
  }

  /** What follows on a connected transport: the handshake, the fonts of a server reached
      over ssh, and the last stage's end. */
  method Establish(plan: seq<RouteStep>, kind: RouteKind, fonts: bool, bridge: FlowBridge) returns (outcome: Outcome)
    requires bridge.Sound() && bridge.flow.state == Connecting && Running(bridge.flow.stages, bridge.readyIndex, 3)
    requires bridge.plan == plan && bridge.readyIndex < |plan| && Through(plan, bridge.entered, bridge.readyIndex, 3)
    requires Watched(bridge.world.trace) == Watch(bridge.readyIndex + 1, Online)
    modifies bridge`shown, bridge`entered, bridge.flow`stages, bridge.flow`state, bridge.world`token, bridge.world`trace
    ensures NoneUp(old(bridge.world.trace), bridge.world.trace) && (old(bridge.world.token) ==> bridge.world.token)
    ensures Settled(bridge, outcome) && Explained(plan, Watched(bridge.world.trace), outcome)
    ensures outcome == WasCancelled ==> bridge.world.token
    ensures outcome == Succeeded ==> Through(plan, bridge.entered, bridge.readyIndex, 4)
  {
    hide Running, Listed, Through, RouteStages;
    outcome := Handshake(bridge);
    if outcome != Succeeded {
      return;
    }
    if fonts && kind != Direct {
      ghost var through := bridge.entered;
      outcome := FetchFonts(bridge);
      ThroughMore(plan, through, bridge.entered, bridge.readyIndex, 4);
    } else {
      RunsFurther(bridge.flow.stages, bridge.readyIndex, 5, 6);
    }
    if outcome == Succeeded {
      RunsAtMostOne(bridge.flow.stages, bridge.readyIndex, 6);
      bridge.flow.Finish();
      bridge.Tick();
    }
  }

  /** `connect_impl`: however the world answers, routes begin in turn, only a broker
      gives way to the next one, and nothing begins after a cancel was seen; at every
      repaint at most one stage runs, and none once the attempt is settled. A problem
      found beforehand ends it before any route begins. */
  method ConnectImpl(plan: seq<RouteStep>, problem: bool, fonts: bool, bridge: FlowBridge) returns (outcome: Outcome)
    requires bridge.Sound() && Resting(bridge.flow.stages) && bridge.world.trace == [] && bridge.plan == plan
    modifies bridge, bridge.flow, bridge.world
    ensures QuicOffered(plan, bridge.world.trace)
    ensures outcome == Succeeded ==> bridge.readyIndex < |plan| && Through(plan, bridge.entered, bridge.readyIndex, 4)
    ensures Orderly(bridge.world.trace) && Settled(bridge, outcome)
    ensures if problem then outcome == GaveUp && bridge.world.trace == []
            else Explained(plan, Watched(bridge.world.trace), outcome)
    ensures outcome == WasCancelled ==> bridge.world.token
    ensures bridge.world.fetches <= old(bridge.world.fetches) + |plan| + 1
  {
    hide Running, Listed, Through, RouteStages, QuicOffered, SoundShow;
    NothingOffered(plan);
    if problem {
      outcome := FailPreflight(plan, bridge);
      return;
    }
    var firstStep := 0;
    while true
      invariant 0 <= firstStep <= |plan| && bridge.Sound() && Resting(bridge.flow.stages)
      invariant Watched(bridge.world.trace) == Watch(firstStep, Walking) && QuicOffered(plan, bridge.world.trace)
      invariant bridge.world.fetches <= old(bridge.world.fetches) + firstStep
      decreases |plan| - firstStep
    {
      ghost var was := bridge.world.trace;
      var stop := bridge.world.Cancelled();
      NoneUpOffered(plan, was, bridge.world.trace);
      if stop {
        outcome := FinishCancelled(bridge);
        return;
      }
      var ok, kind := OpenConnection(plan, firstStep, bridge);
      was := bridge.world.trace;
      if !ok {
        stop := bridge.world.Cancelled();
        NoneUpOffered(plan, was, bridge.world.trace);
        if stop {
          outcome := FinishCancelled(bridge);
        } else {
          outcome := FinishFailed(bridge);
        }
        return;
      }
      var t := TryTransport(plan, kind, bridge);
      NoneUpOffered(plan, was, bridge.world.trace);
      match t
      case Abandoned(o) => return o;
      case FallBack => firstStep := bridge.readyIndex + 1;
      case Opened =>
        was := bridge.world.trace;
        outcome := Establish(plan, kind, fonts, bridge);
        NoneUpOffered(plan, was, bridge.world.trace);
        return;
    }
  }

  lemma NothingOffered(plan: seq<RouteStep>)
    ensures QuicOffered(plan, [])
  {
  }

  method FailPreflight(plan: seq<RouteStep>, bridge: FlowBridge) returns (outcome: Outcome)
    requires bridge.Sound() && Resting(bridge.flow.stages)
    modifies bridge`shown, bridge.flow
    ensures Settled(bridge, GaveUp) && outcome == GaveUp
  {
    if plan != [] {
      var kind := RouteStages(plan[0])[0];
      bridge.flow.BeginStep(0);
      RestingRuns(bridge.flow.stages, 0, Rank(kind));
      bridge.flow.Enter(0, kind);
      RunsAtMostOne(bridge.flow.stages, 0, Rank(kind));
    }
    outcome := FinishFailed(bridge);
  }

  /** `AsyncConnect::run`: a cancel that comes just as the attempt succeeds wins, and
      a cancelled attempt ends idle. */
  method RunAsync(plan: seq<RouteStep>, problem: bool, fonts: bool)
    returns (outcome: Outcome, flow: ConnectFlow, world: World, ghost shown: seq<Shown>, ghost entered: seq<Entry>, ghost used: nat)
    ensures Orderly(world.trace) && QuicOffered(plan, world.trace) && Resting(flow.stages)
    ensures Listed(plan, entered) && (outcome == Succeeded ==> used < |plan| && Through(plan, entered, used, 4))
    ensures flow.state == match outcome
                          case Succeeded => Connected
                          case WasCancelled => Idle
                          case GaveUp => FlowFailed
    ensures outcome == WasCancelled ==> world.token
    ensures outcome == Succeeded ==> !world.token && Watched(world.trace).phase == Online
    ensures forall i :: 0 <= i < |shown| ==> SoundShow(shown[i])
  {
    flow := new ConnectFlow(plan);
    world := new World();
    var bridge := new FlowBridge(flow, world, plan);
    outcome := ConnectImpl(plan, problem, fonts, bridge);
    if outcome == Succeeded {
      ghost var was := world.trace;
      var seen := world.Cancelled();
      NoneUpOffered(plan, was, world.trace);
      if seen {
        outcome := FinishCancelled(bridge);
      }
    }
    if outcome == WasCancelled {
      flow.FinishDisconnect();
    }
    shown, entered, used := bridge.shown, bridge.entered, bridge.readyIndex;
  }
}
