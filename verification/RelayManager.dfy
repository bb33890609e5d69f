/**
 Opening and closing relay connections over the limits ledger.  Opening is three steps (reserve, dial,
 publish) and closing two (unpublish, release); steps of different goroutines interleave.
 */
module RelayManager {
  import opened Wrappers
  import opened Limits

  // ---------------------------------------------------------------- states and steps

  /** Whatever holds one reservation: an open in flight, a published connection, or a close that has
      taken the connection out but not yet released. */
  datatype Holder = Opening(t: nat) | Conn(id: string) | Closing(t: nat)

  /** `holds` names the client of every reservation. */
  datatype State = State(books: Ledger, holds: map<Holder, string>)

  datatype Step =
    | ReserveStep(t: nat, client: string)
    | DialFails(t: nat)
    | Publish(t: nat, id: string)
    | Unpublish(t: nat, id: string)
    | ReleaseStep(t: nat)

  function Start(): State {
    State(Ledger(0, map[]), map[])
  }

  /** Goroutines are told apart by number; a published id is new, as ids are random. */
  predicate Enabled(s: State, step: Step) {
    match step
    case ReserveStep(t, _) => Opening(t) !in s.holds
    case DialFails(t) => Opening(t) in s.holds
    case Publish(t, id) => Opening(t) in s.holds && Conn(id) !in s.holds
    case Unpublish(t, id) => Closing(t) !in s.holds
    case ReleaseStep(t) => Closing(t) in s.holds
  }

  function Move(holds: map<Holder, string>, from: Holder, to: Holder): map<Holder, string>
    requires from in holds
  {
    (holds - {from})[to := holds[from]]
  }

  function Next(s: State, step: Step, cfg: Config): State
    requires Enabled(s, step)
  {
    match step
    case ReserveStep(t, client) =>
      if ReserveError(s.books, client, cfg).Some? then s
      else State(Reserve(s.books, client), s.holds[Opening(t) := client])
    case DialFails(t) => State(Release(s.books, s.holds[Opening(t)]), s.holds - {Opening(t)})
    case Publish(t, id) => s.(holds := Move(s.holds, Opening(t), Conn(id)))
    case Unpublish(t, id) =>
      if Conn(id) in s.holds then s.(holds := Move(s.holds, Conn(id), Closing(t))) else s
    case ReleaseStep(t) => State(Release(s.books, s.holds[Closing(t)]), s.holds - {Closing(t)})
  }

  function Exec(steps: seq<Step>, cfg: Config): Option<State> {
    if steps == [] then Some(Start())
    else
      var r := Exec(steps[..|steps| - 1], cfg);
      var step := steps[|steps| - 1];
      if r.Some? && Enabled(r.value, step) then Some(Next(r.value, step, cfg)) else None
  }

  // ---------------------------------------------------------------- conservation

  /** The reservations of one client. */
  function HeldBy(holds: map<Holder, string>, client: string): set<Holder> {
    set h | h in holds && holds[h] == client
  }

  ghost predicate Inv(s: State, cfg: Config) {
    && Balanced(s.books)
    && WithinLimits(s.books, cfg)
    && s.books.total == |s.holds|
    && forall client :: CountFor(s.books.byClient, client) == |HeldBy(s.holds, client)|
  }

  lemma {:induction false} AddHolder(holds: map<Holder, string>, h: Holder, client: string)
    requires h !in holds
    ensures |holds[h := client]| == |holds| + 1
    ensures forall c :: |HeldBy(holds[h := client], c)| == |HeldBy(holds, c)| + if c == client then 1 else 0
  {
    hide HeldBy;
    forall c
      ensures |HeldBy(holds[h := client], c)| == |HeldBy(holds, c)| + if c == client then 1 else 0
    {
      AddHolderFor(holds, h, client, c);
    }
  }

  lemma {:induction false} AddHolderFor(holds: map<Holder, string>, h: Holder, client: string, c: string)
    requires h !in holds
    ensures |HeldBy(holds[h := client], c)| == |HeldBy(holds, c)| + if c == client then 1 else 0
  {
    if c == client {
      assert HeldBy(holds[h := client], c) == HeldBy(holds, c) + {h};
    } else {
      assert HeldBy(holds[h := client], c) == HeldBy(holds, c);
    }
  }

  lemma {:induction false} DropHolder(holds: map<Holder, string>, h: Holder)
    requires h in holds
    ensures |holds - {h}| == |holds| - 1
    ensures forall c :: |HeldBy(holds - {h}, c)| == |HeldBy(holds, c)| - if c == holds[h] then 1 else 0
  {
    var holds' := holds - {h};
    assert holds'[h := holds[h]] == holds;
    AddHolder(holds', h, holds[h]);
  }

  lemma {:induction false} MoveHolder(holds: map<Holder, string>, from: Holder, to: Holder)
    requires from in holds && to !in holds
    ensures |Move(holds, from, to)| == |holds|
    ensures forall c :: |HeldBy(Move(holds, from, to), c)| == |HeldBy(holds, c)|
  {
    DropHolder(holds, from);
    AddHolder(holds - {from}, to, holds[from]);
  }

  lemma {:induction false} ReleaseHolder(s: State, h: Holder, cfg: Config)
    requires Inv(s, cfg) && h in s.holds
    ensures Inv(State(Release(s.books, s.holds[h]), s.holds - {h}), cfg)
  {
    var client := s.holds[h];
    assert h in HeldBy(s.holds, client);
    assert client in s.books.byClient;
    ReleaseKeeps(s.books, client, cfg);
    DropHolder(s.holds, h);
    hide Balanced, WithinLimits, HeldBy;
    forall c | c != client
      ensures CountFor(Release(s.books, client).byClient, c) == CountFor(s.books.byClient, c)
    {
    }
  }

  lemma {:induction false} StepKeeps(s: State, step: Step, cfg: Config)
    requires Inv(s, cfg) && Enabled(s, step)
    ensures Inv(Next(s, step, cfg), cfg)
  {
    match step
    case ReserveStep(t, client) =>
      if ReserveError(s.books, client, cfg).None? {
        ReserveKeeps(s.books, client, cfg);
        AddHolder(s.holds, Opening(t), client);
        var s' := Next(s, step, cfg);
        forall c
          ensures CountFor(s'.books.byClient, c) == |HeldBy(s'.holds, c)|
        {
          assert CountFor(s.books.byClient, c) == |HeldBy(s.holds, c)|;
        }
      }
    case DialFails(t) => ReleaseHolder(s, Opening(t), cfg);
    case Publish(t, id) => MoveHolder(s.holds, Opening(t), Conn(id));
    case Unpublish(t, id) =>
      if Conn(id) in s.holds {
        MoveHolder(s.holds, Conn(id), Closing(t));
      }
    case ReleaseStep(t) => ReleaseHolder(s, Closing(t), cfg);
  }

  function Published(holds: map<Holder, string>): set<Holder> {
    set h | h in holds && h.Conn?
  }

  function OpensInFlight(holds: map<Holder, string>): set<Holder> {
    set h | h in holds && h.Opening?
  }

  function ReleasesInFlight(holds: map<Holder, string>): set<Holder> {
    set h | h in holds && h.Closing?
  }

  lemma {:induction false} HoldersSplit(holds: map<Holder, string>)
    ensures |holds| == |Published(holds)| + |OpensInFlight(holds)| + |ReleasesInFlight(holds)|
  {
    assert holds.Keys == Published(holds) + OpensInFlight(holds) + ReleasesInFlight(holds);
  }

  lemma {:induction false} AlwaysInv(steps: seq<Step>, cfg: Config)
    requires Exec(steps, cfg).Some?
    ensures Inv(Exec(steps, cfg).value, cfg)
  {
    if steps == [] {
      assert forall client :: HeldBy(Start().holds, client) == {};
    } else {
      AlwaysInv(steps[..|steps| - 1], cfg);
      StepKeeps(Exec(steps[..|steps| - 1], cfg).value, steps[|steps| - 1], cfg);
    }
  }

  lemma {:induction false} ExecSnoc(steps: seq<Step>, step: Step, cfg: Config)
    ensures var r := Exec(steps, cfg);
            Exec(steps + [step], cfg)
            == if r.Some? && Enabled(r.value, step) then Some(Next(r.value, step, cfg)) else None
  {
    assert (steps + [step])[..|steps|] == steps;
  }

  /** MAIN RESULT.  In every interleaving of opens and closes: the total is the sum of the per-client
      counts, and is the number of published connections plus opens and releases in flight; each
      client's count is the number of its own; and neither limit is ever exceeded. */
  lemma {:induction false} Conservation(steps: seq<Step>, cfg: Config)
    requires Exec(steps, cfg).Some?
    ensures var s := Exec(steps, cfg).value;
            && s.books.total == Sum(s.books.byClient)
            && s.books.total == |Published(s.holds)| + |OpensInFlight(s.holds)| + |ReleasesInFlight(s.holds)|
            && (forall client :: CountFor(s.books.byClient, client) == |HeldBy(s.holds, client)|)
            && WithinLimits(s.books, cfg)
  {
    AlwaysInv(steps, cfg);
    HoldersSplit(Exec(steps, cfg).value.holds);
  }

  predicate TotalReached(holds: map<Holder, string>, cfg: Config) {
    cfg.maxTotalConns > 0 && |holds| >= cfg.maxTotalConns
  }

  predicate ClientReached(holds: map<Holder, string>, client: string, cfg: Config) {
    cfg.maxConnsPerClient > 0 && |HeldBy(holds, client)| >= cfg.maxConnsPerClient
  }

  /** MAIN RESULT.  In every interleaving, an open is granted its reservation if and only if neither the
      total limit is reached by all the reservations held nor the client's by its own; it is refused
      with the total limit if that is reached, and with the client's otherwise. */
  lemma {:induction false} GrantedExactly(steps: seq<Step>, t: nat, client: string, cfg: Config)
    requires Exec(steps, cfg).Some? && Enabled(Exec(steps, cfg).value, ReserveStep(t, client))
    ensures var s := Exec(steps, cfg).value;
            var s' := Next(s, ReserveStep(t, client), cfg);
            && (Opening(t) in s'.holds <==> !TotalReached(s.holds, cfg) && !ClientReached(s.holds, client, cfg))
            && (Opening(t) in s'.holds ==> s'.holds == s.holds[Opening(t) := client])
            && (Opening(t) !in s'.holds ==> s' == s)
            && ReserveError(s.books, client, cfg) ==
               (if TotalReached(s.holds, cfg) then Some(MaxTotalConns)
                else if ClientReached(s.holds, client, cfg) then Some(MaxConnsPerClient)
                else None)
  {
    AlwaysInv(steps, cfg);
    hide Exec;
  }

  /** How many reservations a run has granted. */
  function Granted(steps: seq<Step>, cfg: Config): nat {
    if steps == [] then 0
    else
      var init, step := steps[..|steps| - 1], steps[|steps| - 1];
      var r := Exec(init, cfg);
      Granted(init, cfg)
      + if step.ReserveStep? && r.Some? && !TotalReached(r.value.holds, cfg) && !ClientReached(r.value.holds, step.client, cfg)
        then 1 else 0
  }

  /** How many it has given back. */
  function GivenBack(steps: seq<Step>): nat {
    if steps == [] then 0
    else
      var step := steps[|steps| - 1];
      GivenBack(steps[..|steps| - 1]) + if step.DialFails? || step.ReleaseStep? then 1 else 0
  }

  /** The connection is published: its id was, and has not been taken out since. */
  predicate PublishedIn(steps: seq<Step>, id: string) {
    steps != [] &&
    var init, step := steps[..|steps| - 1], steps[|steps| - 1];
    if step.Publish? && step.id == id then true
    else if step.Unpublish? && step.id == id then false
    else PublishedIn(init, id)
  }

  lemma {:induction false} StepCounts(s: State, step: Step, cfg: Config)
    requires Inv(s, cfg) && Enabled(s, step)
    ensures var granted := step.ReserveStep? && !TotalReached(s.holds, cfg) && !ClientReached(s.holds, step.client, cfg);
            |Next(s, step, cfg).holds|
            == |s.holds| + (if granted then 1 else 0) - (if step.DialFails? || step.ReleaseStep? then 1 else 0)
  {
    match step
    case ReserveStep(t, client) => AddHolder(s.holds, Opening(t), client);
    case DialFails(t) => DropHolder(s.holds, Opening(t));
    case Publish(t, id) => MoveHolder(s.holds, Opening(t), Conn(id));
    case Unpublish(t, id) =>
      if Conn(id) in s.holds {
        MoveHolder(s.holds, Conn(id), Closing(t));
      }
    case ReleaseStep(t) => DropHolder(s.holds, Closing(t));
  }

  /** MAIN RESULT.  In every interleaving nothing leaks: what the ledger still counts is exactly what has
      been granted and not given back by a failed dial or a finished close. */
  lemma {:induction false} NothingLeaks(steps: seq<Step>, cfg: Config)
    requires Exec(steps, cfg).Some?
    ensures Exec(steps, cfg).value.books.total + GivenBack(steps) == Granted(steps, cfg)
  {
    AlwaysInv(steps, cfg);
    if steps != [] {
      hide Next, Enabled, TotalReached, ClientReached;
      var init, step := steps[..|steps| - 1], steps[|steps| - 1];
      NothingLeaks(init, cfg);
      AlwaysInv(init, cfg);
      StepCounts(Exec(init, cfg).value, step, cfg);
    }
  }

  /** In every interleaving the connections published are those last published and not taken out since. */
  lemma {:induction false} PublishedExactly(steps: seq<Step>, id: string, cfg: Config)
    requires Exec(steps, cfg).Some?
    ensures Conn(id) in Exec(steps, cfg).value.holds <==> PublishedIn(steps, id)
  {
    hide ReserveError, Reserve, Release;
    if steps != [] {
      PublishedExactly(steps[..|steps| - 1], id, cfg);
    }
  }

  /** Fresh ids are needed, and nothing less: publishing under an id in use loses a reservation. */
  lemma {:induction false} FreshIdNeeded(s: State, t: nat, id: string, cfg: Config)
    requires Inv(s, cfg) && Opening(t) in s.holds
    ensures Inv(s.(holds := Move(s.holds, Opening(t), Conn(id))), cfg) <==> Conn(id) !in s.holds
  {
    if Conn(id) !in s.holds {
      MoveHolder(s.holds, Opening(t), Conn(id));
    } else {
      var rest := s.holds - {Opening(t)};
      DropHolder(s.holds, Opening(t));
      assert Move(s.holds, Opening(t), Conn(id)).Keys == rest.Keys;
    }
  }

  // ---------------------------------------------------------------- the manager

  datatype Request = Request(proto: string, dstHost: string, dstPort: int)

  datatype OpenError = BadRequest | Refused(e: LimitError)

  class Manager {
    const limits: Limits.Manager
    /** The client of every published connection. */
    var conns: map<string, string>

    /** The steps taken so far, and the state they lead to. */
    ghost var steps: seq<Step>
    ghost var model: State

    ghost predicate Valid()
      reads this, limits
    {
      && Exec(steps, limits.cfg) == Some(model)
      && Inv(model, limits.cfg)
      && model.books == limits.Books()
      && ConnsAgree(conns, model.holds)
    }

    constructor (limits: Limits.Manager)
      requires limits.Books() == Ledger(0, map[])
      ensures Valid() && steps == [] && this.limits == limits
    {
      this.limits := limits;
      conns := map[];
      steps, model := [], Start();
      new;
      AlwaysInv([], limits.cfg);
    }

    /** The part of opening before the dial, in goroutine `t`. */
    method BeginOpen(client: string, req: Request, ghost t: nat) returns (r: Result<(), OpenError>)
      requires Valid() && Enabled(model, ReserveStep(t, client))
      modifies this, limits
      ensures Valid()
      ensures r == Err(BadRequest) <==> req.proto != "tcp" || req.dstHost == "" || !(0 < req.dstPort <= 65535)
      ensures model == if r == Err(BadRequest) then old(model)
                       else Next(old(model), ReserveStep(t, client), limits.cfg)
      ensures steps == if r == Err(BadRequest) then old(steps) else old(steps) + [ReserveStep(t, client)]
      ensures r.Ok? <==> Opening(t) in model.holds
      ensures r != Err(BadRequest) ==>
                var holds := old(model).holds;
                && (r == Err(Refused(MaxTotalConns)) <==> TotalReached(holds, limits.cfg))
                && (r == Err(Refused(MaxConnsPerClient)) <==>
                      !TotalReached(holds, limits.cfg) && ClientReached(holds, client, limits.cfg))
                && (r == Ok(()) <==> !TotalReached(holds, limits.cfg) && !ClientReached(holds, client, limits.cfg))
      ensures conns == old(conns)
    {
      if req.proto != "tcp" {
        return Err(BadRequest);
      }
      if req.dstHost == "" || req.dstPort <= 0 || req.dstPort > 65535 {
        return Err(BadRequest);
      }
      hide Inv, Exec, ReserveError, TotalReached, ClientReached;
      GrantedExactly(steps, t, client, limits.cfg);
      StepKeeps(model, ReserveStep(t, client), limits.cfg);
      ExecSnoc(steps, ReserveStep(t, client), limits.cfg);
      steps, model := steps + [ReserveStep(t, client)], Next(model, ReserveStep(t, client), limits.cfg);
      var got := limits.ReserveRelayConn(client);
      if got.Err? {
        return Err(Refused(got.error));
      }
      return Ok(());
    }

    /** The dial, or making an id, failed. */
    method FailOpen(client: string, ghost t: nat)
      requires Valid() && Opening(t) in model.holds && model.holds[Opening(t)] == client
      modifies this, limits
      ensures Valid() && model == Next(old(model), DialFails(t), limits.cfg) && steps == old(steps) + [DialFails(t)] && conns == old(conns)
    {
      hide Inv, Exec;
      StepKeeps(model, DialFails(t), limits.cfg);
      ExecSnoc(steps, DialFails(t), limits.cfg);
      steps, model := steps + [DialFails(t)], Next(model, DialFails(t), limits.cfg);
      limits.ReleaseRelayConn(client);
    }

    method PublishConn(id: string, client: string, ghost t: nat)
      requires Valid() && Enabled(model, Publish(t, id)) && model.holds[Opening(t)] == client
      modifies this
      ensures Valid() && model == Next(old(model), Publish(t, id), limits.cfg) && steps == old(steps) + [Publish(t, id)]
      ensures conns == old(conns)[id := client]
    {
      hide Inv, Exec;
      StepKeeps(model, Publish(t, id), limits.cfg);
      ExecSnoc(steps, Publish(t, id), limits.cfg);
      steps, model := steps + [Publish(t, id)], Next(model, Publish(t, id), limits.cfg);
      conns := conns[id := client];
    }

    /** The first half of the close callback; only the first close of an id finds it. */
    method TakeConn(id: string, ghost t: nat) returns (existed: bool)
      requires Valid() && Closing(t) !in model.holds
      modifies this
      ensures Valid() && model == Next(old(model), Unpublish(t, id), limits.cfg) && steps == old(steps) + [Unpublish(t, id)]
      ensures existed <==> id in old(conns)
      ensures conns == old(conns) - {id}
      ensures existed ==> Closing(t) in model.holds && model.holds[Closing(t)] == old(conns)[id]
    {
      hide Inv, Exec, ConnsAgree;
      UnpublishAgrees(conns, model.holds, id, t);
      StepKeeps(model, Unpublish(t, id), limits.cfg);
      ExecSnoc(steps, Unpublish(t, id), limits.cfg);
      steps, model := steps + [Unpublish(t, id)], Next(model, Unpublish(t, id), limits.cfg);
      existed := id in conns;
      if existed {
        conns := conns - {id};
      }
    }

    /** The second half. */
    method FinishClose(client: string, ghost t: nat)
      requires Valid() && Closing(t) in model.holds && model.holds[Closing(t)] == client
      modifies this, limits
      ensures Valid() && model == Next(old(model), ReleaseStep(t), limits.cfg) && steps == old(steps) + [ReleaseStep(t)] && conns == old(conns)
    {
      hide Inv, Exec;
      StepKeeps(model, ReleaseStep(t), limits.cfg);
      ExecSnoc(steps, ReleaseStep(t), limits.cfg);
      steps, model := steps + [ReleaseStep(t)], Next(model, ReleaseStep(t), limits.cfg);
      limits.ReleaseRelayConn(client);
    }
  }

  /** So whatever its users have done, the manager's own fields account for every connection. */
  lemma {:induction false} ManagerConserves(m: Manager)
    requires m.Valid()
    ensures var l := m.limits;
            && l.totalRelayConns == Sum(l.relayConnsByClient)
            && l.totalRelayConns == |m.conns| + |OpensInFlight(m.model.holds)| + |ReleasesInFlight(m.model.holds)|
            && WithinLimits(l.Books(), l.cfg)
            && l.totalRelayConns + GivenBack(m.steps) == Granted(m.steps, l.cfg)
            && (forall id :: id in m.conns <==> PublishedIn(m.steps, id))
  {
    hide Exec, Inv, Granted, GivenBack, PublishedIn;
    Conservation(m.steps, m.limits.cfg);
    NothingLeaks(m.steps, m.limits.cfg);
    forall id
      ensures id in m.conns <==> PublishedIn(m.steps, id)
    {
      PublishedExactly(m.steps, id, m.limits.cfg);
    }
    assert m.model.books == m.limits.Books();
    PublishedAre(m.conns, m.model.holds);
  }

  lemma {:induction false} PublishedAre(conns: map<string, string>, holds: map<Holder, string>)
    requires ConnsAgree(conns, holds)
    ensures |Published(holds)| == |conns|
    decreases |conns|
  {
    if conns == map[] {
      assert Published(holds) == {};
    } else {
      var id :| id in conns;
      var conns', holds' := conns - {id}, holds - {Conn(id)};
      PublishedAre(conns', holds');
      assert Published(holds) == Published(holds') + {Conn(id)};
    }
  }

  lemma {:induction false} UnpublishAgrees(conns: map<string, string>, holds: map<Holder, string>, id: string, t: nat)
    requires ConnsAgree(conns, holds) && Closing(t) !in holds
    ensures id in conns <==> Conn(id) in holds
    ensures id in conns ==>
              holds[Conn(id)] == conns[id] && ConnsAgree(conns - {id}, Move(holds, Conn(id), Closing(t)))
    ensures id !in conns ==> conns - {id} == conns
  {
  }

  ghost predicate ConnsAgree(conns: map<string, string>, holds: map<Holder, string>) {
    && (forall id :: id in conns <==> Conn(id) in holds)
    && (forall id :: id in conns ==> conns[id] == holds[Conn(id)])
  }
}
