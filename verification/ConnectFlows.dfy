/** What the user is shown of a connect attempt: the stages of each route the plan
    may try, and the state of the whole. */
module ConnectFlows {
  datatype RouteKind = Broker | Direct | Tunnel

  /** One route of a plan: over QUIC or not, with its own cookie or not. */
  datatype RouteStep = RouteStep(kind: RouteKind, quic: bool, hasCookie: bool)

  datatype StageKind = ContactingBroker | Authenticating | FetchingCookie | StartingTunnel | WaitingForForward
                     | ConnectingTransport | WaitingForHandshake | RequestingDisplay | FetchingFonts

  datatype StageState = Pending | Active | Done | Failed | Skipped

  datatype Stage = Stage(kind: StageKind, step: nat, state: StageState)

  datatype FlowState = Idle | Connecting | Connected | FlowFailed | Disconnecting

  /** `route_stages`. */
  function RouteStages(step: RouteStep): seq<StageKind> {
    match step.kind
    case Broker => [ContactingBroker, Authenticating, WaitingForHandshake, RequestingDisplay]
    case Direct => [ConnectingTransport, WaitingForHandshake, RequestingDisplay]
    case Tunnel =>
      (if step.hasCookie then [] else [FetchingCookie])
      + [StartingTunnel, WaitingForForward, ConnectingTransport, WaitingForHandshake, RequestingDisplay]
  }

  /** How far along its route a stage is. */
  function Rank(kind: StageKind): nat {
    match kind
    case ContactingBroker | FetchingCookie => 0
    case Authenticating | StartingTunnel => 1
    case WaitingForForward => 2
    case ConnectingTransport => 3
    case WaitingForHandshake => 4
    case RequestingDisplay => 5
    case FetchingFonts => 6
  }

  predicate Before(a: Stage, b: Stage) {
    a.step < b.step || (a.step == b.step && Rank(a.kind) < Rank(b.kind))
  }

  /** Routes in the plan's order, each route's stages in the order they run. */
  predicate InOrder(stages: seq<Stage>) {
    forall i, j :: 0 <= i < j < |stages| ==> Before(stages[i], stages[j])
  }

  predicate OneActive(stages: seq<Stage>) {
    forall i, j :: 0 <= i < j < |stages| ==> !(stages[i].state == Active && stages[j].state == Active)
  }

  predicate NoneActive(stages: seq<Stage>) {
    forall i :: 0 <= i < |stages| ==> stages[i].state != Active
  }

  /** At most one stage is active, and it is of this route, no further than rank. */
  predicate Running(stages: seq<Stage>, step: nat, rank: nat) {
    && InOrder(stages) && OneActive(stages)
    && forall i :: 0 <= i < |stages| && stages[i].state == Active ==> stages[i].step == step && Rank(stages[i].kind) <= rank
  }

  predicate Resting(stages: seq<Stage>) {
    InOrder(stages) && NoneActive(stages)
  }

  lemma RestingRuns(stages: seq<Stage>, step: nat, rank: nat)
    requires Resting(stages)
    ensures Running(stages, step, rank)
  {
  }

  lemma RunsFurther(stages: seq<Stage>, step: nat, rank: nat, rank': nat)
    requires Running(stages, step, rank) && rank <= rank'
    ensures Running(stages, step, rank')
  {
  }

  /** Where the stage of that kind is in a route; the number of stages if nowhere. */
  function FindStage(stages: seq<Stage>, step: nat, kind: StageKind): (at: nat)
    ensures at <= |stages|
    ensures at < |stages| ==> stages[at].step == step && stages[at].kind == kind
    ensures forall i :: 0 <= i < at ==> !(stages[i].step == step && stages[i].kind == kind)
  {
    if stages == [] then 0
    else if stages[0].step == step && stages[0].kind == kind then 0
    else 1 + FindStage(stages[1..], step, kind)
  }

  /** Entering a stage: the stages of its route before it are behind. */
  function Entered(stages: seq<Stage>, at: nat): seq<Stage>
    requires at < |stages|
  {
    seq(|stages|, i requires 0 <= i < |stages| =>
      if i == at then stages[i].(state := Active)
      else if i < at && stages[i].step == stages[at].step && (stages[i].state == Active || stages[i].state == Pending)
      then stages[i].(state := Done)
      else stages[i])
  }

  /** Entering a stage no earlier than the active one leaves it the only active one. */
  lemma EnteredRuns(stages: seq<Stage>, at: nat)
    requires at < |stages| && Running(stages, stages[at].step, Rank(stages[at].kind))
    ensures Running(Entered(stages, at), stages[at].step, Rank(stages[at].kind))
    ensures forall i :: 0 <= i < |stages| ==> (Entered(stages, at)[i].state == Active <==> i == at)
  {
    var after := Entered(stages, at);
    forall i | 0 <= i < |stages| ensures after[i].state == Active <==> i == at {
      if i > at {
        assert Before(stages[at], stages[i]);
      }
    }
    forall i, j | 0 <= i < j < |after| ensures Before(after[i], after[j]) {
      assert Before(stages[i], stages[j]);
    }
  }

  /** A route's failure: its active stage failed, what it never reached is skipped;
      with none active, its first stage is marked. */
  function StepFailed(stages: seq<Stage>, step: nat): seq<Stage> {
    var swept := Swept(stages, step);
    if exists i :: 0 <= i < |stages| && stages[i].step == step && stages[i].state == Active then swept
    else
      var first := FirstOf(swept, step);
      if first < |swept| then swept[first := swept[first].(state := Failed)] else swept
  }

  function Swept(stages: seq<Stage>, step: nat): seq<Stage> {
    seq(|stages|, i requires 0 <= i < |stages| => SweptStage(stages[i], step))
  }

  function SweptStage(stage: Stage, step: nat): Stage {
    if stage.step != step then stage
    else if stage.state == Active then stage.(state := Failed)
    else if stage.state == Pending then stage.(state := Skipped)
    else stage
  }

  function FirstOf(stages: seq<Stage>, step: nat): (at: nat)
    ensures at <= |stages| && (at < |stages| ==> stages[at].step == step)
    ensures forall i :: 0 <= i < at ==> stages[i].step != step
  {
    if stages == [] || stages[0].step == step then 0 else 1 + FirstOf(stages[1..], step)
  }

  lemma StepFailedRests(stages: seq<Stage>, step: nat, rank: nat)
    requires Running(stages, step, rank)
    ensures Resting(StepFailed(stages, step)) && |StepFailed(stages, step)| == |stages|
  {
    var after := StepFailed(stages, step);
    forall i, j | 0 <= i < j < |after| ensures Before(after[i], after[j]) {
      assert Before(stages[i], stages[j]);
    }
  }

  predicate FailedNow(before: seq<Stage>, after: seq<Stage>, i: int)
    requires |before| == |after|
  {
    0 <= i < |after| && after[i].state == Failed && before[i].state != Failed
  }

  /** Every stage of a route that failed is settled, and if it has any, one says that it
      failed, and no more than one says so anew; the stages of other routes stay as they
      were. */
  lemma StepFailedShows(stages: seq<Stage>, step: nat)
    ensures |StepFailed(stages, step)| == |stages|
    ensures forall i :: 0 <= i < |stages| ==>
              var (before, after) := (stages[i], StepFailed(stages, step)[i]);
              if before.step == step then after.state != Active && after.state != Pending else after == before
    ensures (exists i :: 0 <= i < |stages| && stages[i].step == step)
            ==> exists i :: 0 <= i < |stages| && StepFailed(stages, step)[i].step == step && StepFailed(stages, step)[i].state == Failed
    ensures OneActive(stages) ==>
              forall i, j :: FailedNow(stages, StepFailed(stages, step), i) && FailedNow(stages, StepFailed(stages, step), j) ==> i == j
  {
    var after, swept := StepFailed(stages, step), Swept(stages, step);
    if i :| 0 <= i < |stages| && stages[i].step == step && stages[i].state == Active {
      assert after[i].state == Failed;
    } else if i :| 0 <= i < |stages| && stages[i].step == step {
      assert swept[i].step == step;
      var first := FirstOf(swept, step);
      assert first <= i && after[first].state == Failed && after[first].step == step;
    }
  }

  /** The stages of a plan, from its n-th route on. */
  function StagesFrom(plan: seq<RouteStep>, n: nat): seq<Stage>
    requires n <= |plan|
    decreases |plan| - n
  {
    if n == |plan| then []
    else StagesOf(plan, n) + StagesFrom(plan, n + 1)
  }

  function StagesOf(plan: seq<RouteStep>, n: nat): seq<Stage>
    requires n < |plan|
  {
    var kinds := RouteStages(plan[n]);
    seq(|kinds|, i requires 0 <= i < |kinds| => Stage(kinds[i], n, Pending))
  }

  lemma RouteStagesRise(step: RouteStep)
    ensures var kinds := RouteStages(step);
            && (forall i, j :: 0 <= i < j < |kinds| ==> Rank(kinds[i]) < Rank(kinds[j]))
            && |kinds| >= 3 && kinds[|kinds| - 1] == RequestingDisplay
  {
  }

  lemma OwnStagesRest(plan: seq<RouteStep>, n: nat)
    requires n < |plan|
    ensures Resting(StagesOf(plan, n)) && forall i :: 0 <= i < |StagesOf(plan, n)| ==> StagesOf(plan, n)[i].step == n
  {
    RouteStagesRise(plan[n]);
    hide RouteStages, Rank;
  }

  lemma RestingAppend(a: seq<Stage>, b: seq<Stage>, n: nat)
    requires Resting(a) && Resting(b)
    requires (forall i :: 0 <= i < |a| ==> a[i].step == n) && forall i :: 0 <= i < |b| ==> n < b[i].step
    ensures Resting(a + b)
  {
    hide Rank;
  }

  lemma {:induction false} StagesRest(plan: seq<RouteStep>, n: nat)
    requires n <= |plan|
    ensures Resting(StagesFrom(plan, n))
    ensures forall i :: 0 <= i < |StagesFrom(plan, n)| ==> n <= StagesFrom(plan, n)[i].step < |plan|
    decreases |plan| - n
  {
    if n < |plan| {
      OwnStagesRest(plan, n);
      StagesRest(plan, n + 1);
      RestingAppend(StagesOf(plan, n), StagesFrom(plan, n + 1), n);
      hide StagesOf, Resting;
    }
  }

  class ConnectFlow {
    var stages: seq<Stage>
    var state: FlowState
    var fellBack: bool

    constructor (plan: seq<RouteStep>)
      ensures stages == StagesFrom(plan, 0) && Resting(stages) && state == Idle && !fellBack
    {
      state, fellBack := Idle, false;
      hide RouteStages, Resting, Rank;
      StagesRest(plan, 0);
      hide InOrder, NoneActive;
      var all: seq<Stage> := [];
      var i := 0;
      while i < |plan|
        invariant 0 <= i <= |plan| && all + StagesFrom(plan, i) == StagesFrom(plan, 0)
      {
        var kinds := RouteStages(plan[i]);
        ghost var before, own, rest := all, StagesOf(plan, i), StagesFrom(plan, i + 1);
        var k := 0;
        while k < |kinds|
          invariant 0 <= k <= |kinds| == |own|
          invariant all == before + own[..k]
        {
          assert own[..k + 1] == own[..k] + [Stage(kinds[k], i, Pending)];
          all := all + [Stage(kinds[k], i, Pending)];
          k := k + 1;
        }
        assert own[..|own|] == own;
        assert before + (own + rest) == (before + own) + rest;
        i := i + 1;
      }
      stages := all;
    }

    method BeginStep(index: nat)
      modifies `state, `fellBack
      ensures state == Connecting && fellBack == (old(fellBack) || index > 0)
    {
      state := Connecting;
      if index > 0 {
        fellBack := true;
      }
    }

    method Enter(index: nat, kind: StageKind)
      requires Running(stages, index, Rank(kind))
      modifies `stages, `state
      ensures Running(stages, index, Rank(kind)) && |stages| == |old(stages)|
      ensures var at := FindStage(old(stages), index, kind);
              if at < |stages| then stages == Entered(old(stages), at) && state == Connecting
              else stages == old(stages) && state == old(state)
    {
      var at := FindStage(stages, index, kind);
      if at == |stages| {
        return;
      }
      state := Connecting;
      EnteredRuns(stages, at);
      hide Running;
      ghost var was := stages;
      var i := 0;
      while i < at
        invariant 0 <= i <= at && |stages| == |was| && state == Connecting
        invariant forall j :: 0 <= j < i ==> stages[j] == Entered(was, at)[j]
        invariant forall j :: i <= j < |was| ==> stages[j] == was[j]
      {
        if stages[i].step == index && (stages[i].state == Active || stages[i].state == Pending) {
          stages := stages[i := stages[i].(state := Done)];
        }
        i := i + 1;
      }
      stages := stages[at := stages[at].(state := Active)];
      assert stages == Entered(was, at);
    }

    /** A stage the plan could not know of, after the route's last one. */
    method AddStage(index: nat, kind: StageKind)
      requires kind == FetchingFonts
      requires InOrder(stages)
      modifies `stages
      ensures forall rank :: old(Running(stages, index, rank)) ==> Running(stages, index, rank)
      ensures InOrder(stages)
      ensures if FindStage(old(stages), index, kind) < |old(stages)| || FirstOf(old(stages), index) == |old(stages)| then
                stages == old(stages)
              else
                exists at :: 0 < at <= |old(stages)| && old(stages)[at - 1].step == index &&
                  (forall i :: at <= i < |old(stages)| ==> old(stages)[i].step != index) &&
                  stages == old(stages)[..at] + [Stage(kind, index, Pending)] + old(stages)[at..]
    {
      var at := FindStage(stages, index, kind);
      if at < |stages| {
        return;
      }
      var found, last := false, 0;
      var i := 0;
      while i < |stages|
        invariant 0 <= i <= |stages|
        invariant found ==> last < i && stages[last].step == index
        invariant forall j :: (if found then last + 1 else 0) <= j < i ==> stages[j].step != index
      {
        if stages[i].step == index {
          found, last := true, i;
        }
        i := i + 1;
      }
      if !found {
        return;
      }
      Inserted(stages, last + 1, Stage(kind, index, Pending));
      stages := stages[..last + 1] + [Stage(kind, index, Pending)] + stages[last + 1..];
    }

    method FailStep(index: nat, ghost rank: nat)
      requires Running(stages, index, rank)
      modifies `stages
      ensures stages == StepFailed(old(stages), index) && Resting(stages)
    {
      StepFailedRests(stages, index, rank);
      hide Running, Resting;
      ghost var was := stages;
      var marked := false;
      var i := 0;
      while i < |stages|
        invariant 0 <= i <= |stages| == |was|
        invariant marked <==> exists j :: 0 <= j < i && was[j].step == index && was[j].state == Active
        invariant forall j :: i <= j < |was| ==> stages[j] == was[j]
        invariant forall j :: 0 <= j < i ==> stages[j] == SweptStage(was[j], index)
      {
        if stages[i].step == index {
          if stages[i].state == Active {
            stages := stages[i := stages[i].(state := Failed)];
            marked := true;
          } else if stages[i].state == Pending {
            stages := stages[i := stages[i].(state := Skipped)];
          }
        }
        i := i + 1;
      }
      assert stages == Swept(was, index);
      if !marked {
        var first := FirstOf(stages, index);
        if first < |stages| {
          stages := stages[first := stages[first].(state := Failed)];
        }
      }
      assert stages == StepFailed(was, index);
    }

    /** The index of the active stage; the number of stages if none is. */
    method ActiveStage() returns (at: nat)
      ensures at <= |stages| && (at < |stages| ==> stages[at].state == Active)
      ensures forall i :: 0 <= i < at ==> stages[i].state != Active
    {
      at := 0;
      while at < |stages|
        invariant at <= |stages| && forall i :: 0 <= i < at ==> stages[i].state != Active
      {
        if stages[at].state == Active {
          return;
        }
        at := at + 1;
      }
    }

    /** The stage running now, if any, stops in the given state. */
    method Settle(to: StageState)
      requires to != Active && InOrder(stages) && OneActive(stages)
      modifies `stages
      ensures Resting(stages) && |stages| == |old(stages)|
      ensures forall i :: 0 <= i < |stages| ==>
                stages[i] == if old(stages)[i].state == Active then old(stages)[i].(state := to) else old(stages)[i]
    {
      var at := ActiveStage();
      if at < |stages| {
        ghost var was := stages;
        stages := stages[at := stages[at].(state := to)];
        forall i, j | 0 <= i < j < |stages| ensures Before(stages[i], stages[j]) {
          assert Before(was[i], was[j]);
        }
      }
    }

    method Finish()
      requires InOrder(stages) && OneActive(stages)
      modifies `stages, `state
      ensures Resting(stages) && state == Connected && |stages| == |old(stages)|
      ensures forall i :: 0 <= i < |stages| ==>
                stages[i] == if old(stages)[i].state == Active then old(stages)[i].(state := Done) else old(stages)[i]
    {
      Settle(Done);
      state := Connected;
    }

    method Fail()
      requires InOrder(stages) && OneActive(stages)
      modifies `stages, `state
      ensures Resting(stages) && state == FlowFailed && |stages| == |old(stages)|
      ensures forall i :: 0 <= i < |stages| ==>
                stages[i] == if old(stages)[i].state == Active then old(stages)[i].(state := Failed) else old(stages)[i]
    {
      Settle(Failed);
      state := FlowFailed;
    }

    /** Disconnecting on request: stages still active or pending end as skipped. */
    method BeginDisconnect()
      requires InOrder(stages) && OneActive(stages)
      modifies `stages, `state
      ensures Resting(stages) && state == Disconnecting && |stages| == |old(stages)|
      ensures forall i :: 0 <= i < |stages| ==>
                stages[i] == if old(stages)[i].state == Active || old(stages)[i].state == Pending
                             then old(stages)[i].(state := Skipped) else old(stages)[i]
    {
      Settle(Skipped);
      ghost var was := stages;
      var i := 0;
      while i < |stages|
        invariant 0 <= i <= |stages| == |was|
        invariant forall j :: 0 <= j < i ==>
                    stages[j] == if was[j].state == Pending then was[j].(state := Skipped) else was[j]
        invariant forall j :: i <= j < |was| ==> stages[j] == was[j]
      {
        if stages[i].state == Pending {
          stages := stages[i := stages[i].(state := Skipped)];
        }
        i := i + 1;
      }
      forall i, j | 0 <= i < j < |stages| ensures Before(stages[i], stages[j]) {
        assert Before(was[i], was[j]);
      }
      state := Disconnecting;
    }

    method FinishDisconnect()
      modifies `state
      ensures state == Idle
    {
      state := Idle;
    }
  }

  lemma Inserted(stages: seq<Stage>, at: nat, stage: Stage)
    requires InOrder(stages) && 0 < at <= |stages| && stage.kind == FetchingFonts && stage.state == Pending
    requires stages[at - 1].step == stage.step && forall i :: at <= i < |stages| ==> stages[i].step != stage.step
    requires forall i :: 0 <= i < |stages| ==> !(stages[i].step == stage.step && stages[i].kind == FetchingFonts)
    ensures var after := stages[..at] + [stage] + stages[at..];
            InOrder(after) && forall rank :: Running(stages, stage.step, rank) ==> Running(after, stage.step, rank)
  {
  }
}
