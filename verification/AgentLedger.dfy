/** The agent's durable job ledger and generation fence. */
module AgentLedger {
  import opened Ordering

  datatype Attempt = Attempt(authorized: bool, claimed: bool)

  type Ledger = map<string, Attempt>

  /** Withdraws every authorization, then grants the listed ones; claims are never forgotten. */
  function Authorized(ledger: Ledger, ids: set<string>): Ledger {
    map id | id in ledger.Keys + ids :: Attempt(id in ids, id in ledger && ledger[id].claimed)
  }

  predicate Claimable(ledger: Ledger, id: string) {
    id in ledger && ledger[id].authorized && !ledger[id].claimed
  }

  function Claimed(ledger: Ledger, id: string): Ledger {
    if Claimable(ledger, id) then ledger[id := ledger[id].(claimed := true)] else ledger
  }

  class LocalState {
    var ledger: Ledger

    constructor ()
      ensures ledger == map[]
    {
      ledger := map[];
    }

    method AuthorizeJobs(ids: seq<string>)
      modifies this
      ensures ledger == Authorized(old(ledger), Elements(ids))
    {
      ledger := map id | id in ledger :: ledger[id].(authorized := false);
      for i := 0 to |ids|
        invariant ledger == Authorized(old(ledger), Elements(ids[..i]))
      {
        assert ids[..i + 1] == ids[..i] + [ids[i]];
        ElementsConcat(ids[..i], [ids[i]]);
        ledger := ledger[ids[i] := if ids[i] in ledger then ledger[ids[i]].(authorized := true) else Attempt(true, false)];
      }
      assert ids[..|ids|] == ids;
    }

    method ClaimJob(id: string) returns (won: bool)
      modifies this
      ensures won == Claimable(old(ledger), id) && ledger == Claimed(old(ledger), id)
    {
      won := id in ledger && ledger[id].authorized && !ledger[id].claimed;
      if won { ledger := ledger[id := ledger[id].(claimed := true)]; }
    }
  }

  // ----- the agent's loop, with crashes -----

  datatype Response = Response(generation: nat, jobs: set<string>)

  /** How far the loop has got with a response. */
  datatype Phase =
    | Down
    | Waiting
    | Fencing(response: Response)
    | Crediting(response: Response)
    | Authorizing(response: Response)
    | Handing(response: Response)

  /**
   * `ledger` and `disk` survive a crash; `fence` is the copy in memory. `granted` is the latest authorization list,
   * `claims` and `handed` record every won claim and every generation handed to reconciliation.
   */
  datatype Agent = Agent(ledger: Ledger, disk: nat, fence: nat, phase: Phase,
                         granted: set<string>, claims: seq<string>, handed: seq<nat>)

  datatype Step =
    | Start
    | Crash
    | Receive(response: Response)
    | SaveFence(ok: bool)
    | SaveCredentials(ok: bool)
    | Authorize(ok: bool)
    | HandOver
    | Claim(id: string)

  predicate Enabled(a: Agent, step: Step) {
    match step
    case Start => a.phase.Down?
    case Crash => true
    case Receive(_) => a.phase.Waiting?
    case SaveFence(_) => a.phase.Fencing?
    case SaveCredentials(_) => a.phase.Crediting?
    case Authorize(_) => a.phase.Authorizing?
    case HandOver => a.phase.Handing?
    case Claim(_) => !a.phase.Down?
  }

  function Apply(a: Agent, step: Step): Agent
    requires Enabled(a, step)
  {
    match step
    case Start => a.(ledger := Authorized(a.ledger, {}), granted := {}, fence := a.disk, phase := Waiting)
    case Crash => a.(phase := Down)
    case Receive(response) =>
      if response.generation < a.fence then a else a.(fence := response.generation, phase := Fencing(response))
    case SaveFence(ok) =>
      if ok then a.(disk := a.fence, phase := Crediting(a.phase.response)) else a.(phase := Waiting)
    case SaveCredentials(ok) => if ok then a.(phase := Authorizing(a.phase.response)) else a.(phase := Waiting)
    case Authorize(ok) =>
      if ok then a.(ledger := Authorized(a.ledger, a.phase.response.jobs), granted := a.phase.response.jobs,
                    phase := Handing(a.phase.response))
      else a.(phase := Waiting)
    case HandOver => a.(handed := a.handed + [a.phase.response.generation], phase := Waiting)
    case Claim(id) =>
      if Claimable(a.ledger, id) then a.(ledger := Claimed(a.ledger, id), claims := a.claims + [id]) else a
  }

  ghost predicate Runs(a: Agent, steps: seq<Step>, end: Agent)
    decreases |steps|
  {
    if steps == [] then end == a else Enabled(a, steps[0]) && Runs(Apply(a, steps[0]), steps[1..], end)
  }

  const NEW := Agent(map[], 0, 0, Down, {}, [], [])

  ghost predicate Ascending(s: seq<nat>) {
    forall i, j :: 0 <= i < j < |s| ==> s[i] <= s[j]
  }

  ghost predicate Distinct(s: seq<string>) {
    forall i, j :: 0 <= i < j < |s| ==> s[i] != s[j]
  }

  /** Nothing newer than the saved fence was ever handed over, and the one in memory is never older than it. */
  ghost predicate Fenced(a: Agent) {
    && Ascending(a.handed)
    && (forall i :: 0 <= i < |a.handed| ==> a.handed[i] <= a.disk)
    && (!a.phase.Down? ==> a.disk <= a.fence)
    && (a.phase.Fencing? ==> a.phase.response.generation == a.fence)
    && (a.phase.Crediting? || a.phase.Authorizing? || a.phase.Handing? ==> a.phase.response.generation == a.disk == a.fence)
  }

  /** The ledger remembers every won claim and authorizes exactly the latest list. */
  ghost predicate Recorded(a: Agent) {
    && Distinct(a.claims)
    && (forall id :: id in a.claims <==> id in a.ledger && a.ledger[id].claimed)
    && (forall id :: id in a.granted <==> id in a.ledger && a.ledger[id].authorized)
  }

  lemma {:induction false} ApplyFenced(a: Agent, step: Step)
    requires Fenced(a) && Enabled(a, step)
    ensures Fenced(Apply(a, step))
  {
  }

  lemma {:induction false} ApplyRecorded(a: Agent, step: Step)
    requires Recorded(a) && Enabled(a, step)
    ensures Recorded(Apply(a, step))
  {
    match step
    case Claim(id) => assert Claimable(a.ledger, id) ==> id !in a.claims;
    case _ =>
  }

  lemma {:induction false} RunsSafe(a: Agent, steps: seq<Step>, end: Agent)
    requires Fenced(a) && Recorded(a) && Runs(a, steps, end)
    ensures Fenced(end) && Recorded(end)
    decreases |steps|
  {
    if steps != [] {
      ApplyFenced(a, steps[0]);
      ApplyRecorded(a, steps[0]);
      RunsSafe(Apply(a, steps[0]), steps[1..], end);
    }
  }

  /** In every run, with crashes anywhere, no job is claimed twice. */
  lemma {:induction false} ClaimedOnce(steps: seq<Step>, end: Agent)
    requires Runs(NEW, steps, end)
    ensures Distinct(end.claims)
  {
    RunsSafe(NEW, steps, end);
  }

  /** A claim is won exactly if the job is in the latest authorization list and was never claimed. */
  lemma {:induction false} ClaimsAreGranted(steps: seq<Step>, end: Agent, id: string)
    requires Runs(NEW, steps, end) && Enabled(end, Claim(id))
    ensures Apply(end, Claim(id)).claims == (if id in end.granted && id !in end.claims then end.claims + [id] else end.claims)
  {
    RunsSafe(NEW, steps, end);
  }

  /** In every run, with crashes anywhere, the stored authorizations are exactly the latest list. */
  lemma {:induction false} AuthorizedIsGranted(steps: seq<Step>, end: Agent, id: string)
    requires Runs(NEW, steps, end)
    ensures id in end.ledger && end.ledger[id].authorized <==> id in end.granted
  {
    RunsSafe(NEW, steps, end);
  }

  /** In every run, with crashes anywhere, the generations handed to reconciliation never decrease. */
  lemma {:induction false} GenerationsAscend(steps: seq<Step>, end: Agent)
    requires Runs(NEW, steps, end)
    ensures Ascending(end.handed)
  {
    RunsSafe(NEW, steps, end);
  }

  // ----- what a round does -----

  /** A response older than the fence is ignored. */
  lemma {:induction false} StaleIsIgnored(a: Agent, response: Response)
    requires a.phase.Waiting? && response.generation < a.fence
    ensures Apply(a, Receive(response)) == a
  {
  }

  /**
   * Any other response that is saved in full ends with its generation as the fence in memory and on disk, handed over,
   * and with exactly its jobs authorized; no claim is lost or won.
   */
  lemma {:induction false} RoundCompletes(a: Agent, response: Response) returns (end: Agent)
    requires a.phase.Waiting? && response.generation >= a.fence
    ensures Runs(a, [Receive(response), SaveFence(true), SaveCredentials(true), Authorize(true), HandOver], end)
    ensures end.phase.Waiting? && end.fence == end.disk == response.generation
    ensures end.handed == a.handed + [response.generation] && end.granted == response.jobs && end.claims == a.claims
    ensures forall id :: id in end.ledger && end.ledger[id].authorized <==> id in response.jobs
    ensures forall id :: id in end.ledger && end.ledger[id].claimed <==> id in a.ledger && a.ledger[id].claimed
  {
    var b := Apply(a, Receive(response));
    var c := Apply(b, SaveFence(true));
    var d := Apply(c, SaveCredentials(true));
    var e := Apply(d, Authorize(true));
    end := Apply(e, HandOver);
    RunsStep(e, HandOver, [], end);
    RunsStep(d, Authorize(true), [HandOver], end);
    RunsStep(c, SaveCredentials(true), [Authorize(true), HandOver], end);
    RunsStep(b, SaveFence(true), [SaveCredentials(true), Authorize(true), HandOver], end);
    RunsStep(a, Receive(response), [SaveFence(true), SaveCredentials(true), Authorize(true), HandOver], end);
  }

  lemma {:induction false} RunsStep(a: Agent, step: Step, rest: seq<Step>, end: Agent)
    requires Enabled(a, step) && Runs(Apply(a, step), rest, end)
    ensures Runs(a, [step] + rest, end)
  {
    assert ([step] + rest)[1..] == rest;
  }

  /** A save that fails ends the round: nothing is handed over, authorized or claimed, and an unsaved fence is not on disk. */
  lemma {:induction false} FailedSaveEndsRound(a: Agent, step: Step)
    requires Enabled(a, step) && (step == SaveFence(false) || step == SaveCredentials(false) || step == Authorize(false))
    ensures Apply(a, step) == a.(phase := Waiting)
  {
  }

  /** Whatever it was doing, an agent can crash and come back: with the fence from disk, no authorization and every claim. */
  lemma {:induction false} RestartForgetsAuthorizations(a: Agent)
    ensures Enabled(a, Crash) && Enabled(Apply(a, Crash), Start)
    ensures var back := Apply(Apply(a, Crash), Start);
      && back.phase.Waiting? && back.fence == back.disk == a.disk && back.handed == a.handed && back.claims == a.claims
      && back.granted == {} && (forall id :: id in back.ledger ==> !back.ledger[id].authorized)
      && (forall id :: id in back.ledger && back.ledger[id].claimed <==> id in a.ledger && a.ledger[id].claimed)
  {
  }

  /** Jobs are claimed while the agent is up, whatever its loop is doing, and not while it is down. */
  lemma {:induction false} ClaimsWhileUp(a: Agent, id: string)
    ensures Enabled(a, Claim(id)) <==> a.phase != Down
  {
  }
}
