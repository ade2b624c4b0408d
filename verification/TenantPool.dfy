/** Requests sharing a pool of connections whose sessions carry a tenant setting:
    any interleaving, nesting and failure of set, callback, cleanup or release. */
module TenantPool {
  import opened Wrappers

  datatype Error = AcquireError | SetError | CallbackError | ClearError | Panic

  datatype Phase =
    | Called
    | Acquired(conn: nat)                           // tenant not set yet
    | SetFailed(conn: nat)                          // only the release is deferred
    | Running(conn: nat)                            // the callback is on the connection
    | Clearing(conn: nat, result: Option<Error>)    // the deferred cleanup is due
    | Releasing(conn: nat, result: Option<Error>)   // the deferred release is due
    | Finished(result: Option<Error>)

  // ---------------------------------------------------------------- contexts

  /** A context, as far as the executor attached to it goes. */
  datatype Context = Context(executor: Option<nat>)

  const BACKGROUND: Context := Context(None)

  function WithQuerier(ctx: Context, conn: nat): Context {
    ctx.(executor := Some(conn))
  }

  function QuerierFromContext(ctx: Context, fallback: Option<nat>): Option<nat> {
    if ctx.executor.Some? then ctx.executor else fallback
  }

  /** A callback that is running: the tenant its call asked for and the context it
      was given. */
  datatype Frame = Frame(tenant: string, ctx: Context)

  /** A call that acquires a connection. The frames are its callback and those of
      the calls inside it that reuse the connection, the innermost last. A callback
      may itself overwrite the session setting. */
  datatype Request = Request(
    tenant: string,
    ctx: Context,
    phase: Phase,
    frames: seq<Frame>,
    tampered: bool,
    acquired: nat,
    returned: nat)

  /** The session setting of every open connection, the connections at rest in the
      pool, and those on which the release hook is still to run. */
  datatype Pool = Pool(
    setting: map<nat, string>,
    idle: set<nat>,
    hooked: set<nat>,
    requests: map<nat, Request>)

  datatype Event =
    | Call(r: nat, caller: Option<nat>, ctx: Context, tenant: string)
    | AcquireIdle(r: nat, conn: nat)
    | AcquireNew(r: nat, conn: nat)
    | AcquireFails(r: nat)
    | SetTenant(r: nat)
    | SetTenantFails(r: nat, applied: bool)
    | Leave(r: nat)
    | Overwrite(r: nat, tenant: string)
    | Return(r: nat, result: Option<Error>)
    | Clear(r: nat)
    | ClearFails(r: nat)
    | Release(r: nat)
    | HookClears(conn: nat)
    | HookFails(conn: nat)
    | Retire(conn: nat)

  predicate Holds(phase: Phase) {
    phase.Acquired? || phase.SetFailed? || phase.Running? || phase.Clearing? || phase.Releasing?
  }

  /** The events of the pool itself. */
  predicate IsPoolEvent(e: Event) {
    e.HookClears? || e.HookFails? || e.Retire?
  }

  /** How a request moves; the connection's setting is changed separately. */
  function Next(me: Request, e: Event): Option<Request> {
    match (e, me.phase)
    case (AcquireIdle(_, c), Called) => Some(me.(phase := Acquired(c), acquired := me.acquired + 1))
    case (AcquireNew(_, c), Called) => Some(me.(phase := Acquired(c), acquired := me.acquired + 1))
    case (AcquireFails(_), Called) => Some(me.(phase := Finished(Some(AcquireError))))
    case (SetTenant(_), Acquired(c)) =>
      Some(me.(phase := Running(c), frames := [Frame(me.tenant, WithQuerier(me.ctx, c))]))
    case (SetTenantFails(_, _), Acquired(c)) => Some(me.(phase := SetFailed(c)))
    case (Leave(_), Running(_)) =>
      if |me.frames| > 1 then Some(me.(frames := me.frames[..|me.frames| - 1])) else None
    case (Overwrite(_, _), Running(_)) => Some(me.(tampered := true))
    case (Return(_, result), Running(c)) =>
      // a panic unwinds every call inside; otherwise they have all returned
      if result in {None, Some(CallbackError), Some(Panic)} && (|me.frames| == 1 || result == Some(Panic))
      then Some(me.(phase := Clearing(c, result), frames := [])) else None
    case (Clear(_), Clearing(c, result)) => Some(me.(phase := Releasing(c, result)))
    case (ClearFails(_), Clearing(_, result)) =>
      // hijacked and closed; the callback's own error is kept
      Some(me.(phase := Finished(if result.None? then Some(ClearError) else result), returned := me.returned + 1))
    case (Release(_), Releasing(_, result)) =>
      Some(me.(phase := Finished(result), returned := me.returned + 1))
    case (Release(_), SetFailed(_)) =>
      Some(me.(phase := Finished(Some(SetError)), returned := me.returned + 1))
    case _ => None
  }

  /** What a request's event does to the pool and the connection's session. */
  function Effect(s: Pool, me: Request, e: Event): Pool
    requires Next(me, e).Some?
  {
    match e
    case AcquireIdle(_, c) => s.(idle := s.idle - {c})
    case AcquireNew(_, c) => s.(setting := s.setting[c := ""])
    case SetTenant(_) => s.(setting := s.setting[me.phase.conn := me.tenant])
    case SetTenantFails(_, applied) =>
      if applied then s.(setting := s.setting[me.phase.conn := me.tenant]) else s
    case Overwrite(_, t) => s.(setting := s.setting[me.phase.conn := t])
    case Clear(_) => s.(setting := s.setting[me.phase.conn := ""])
    case ClearFails(_) => s.(setting := s.setting - {me.phase.conn})
    case Release(_) => s.(hooked := s.hooked + {me.phase.conn})
    case _ => s
  }

  function PoolStep(s: Pool, e: Event): Option<Pool>
    requires IsPoolEvent(e)
  {
    var c := e.conn;
    match e
    case HookClears(_) =>
      if c in s.hooked
      then Some(s.(setting := s.setting[c := ""], hooked := s.hooked - {c}, idle := s.idle + {c})) else None
    case HookFails(_) =>
      if c in s.hooked then Some(s.(setting := s.setting - {c}, hooked := s.hooked - {c})) else None
    case Retire(_) =>
      if c in s.idle then Some(s.(setting := s.setting - {c}, idle := s.idle - {c})) else None
  }

  /** A caller outside every callback has a context without executor; a callback
      passes on its own, or one derived from it, or again one without executor. */
  predicate MayPass(s: Pool, caller: Option<nat>, ctx: Context) {
    match caller
    case None => ctx.executor.None?
    case Some(q) =>
      && q in s.requests && s.requests[q].phase.Running? && s.requests[q].frames != []
      && (ctx.executor.None? || ctx.executor == s.requests[q].frames[|s.requests[q].frames| - 1].ctx.executor)
  }

  /** The call's first test: an executor in the context means that its callback
      runs at once, with the context as it is. */
  function CallStep(s: Pool, r: nat, caller: Option<nat>, ctx: Context, tenant: string): Option<Pool> {
    if !MayPass(s, caller, ctx) then None
    else if QuerierFromContext(ctx, None).Some? then
      var me := s.requests[caller.value];
      Some(s.(requests := s.requests[caller.value := me.(frames := me.frames + [Frame(tenant, ctx)])]))
    else if r in s.requests then None
    else Some(s.(requests := s.requests[r := Request(tenant, ctx, Called, [], false, 0, 0)]))
  }

  function Step(s: Pool, e: Event): Option<Pool> {
    if IsPoolEvent(e) then PoolStep(s, e)
    else if e.Call? then CallStep(s, e.r, e.caller, e.ctx, e.tenant)
    else if e.r !in s.requests || Next(s.requests[e.r], e).None? then None
    else if e.AcquireIdle? && e.conn !in s.idle then None
    else if e.AcquireNew? && e.conn in s.setting then None
    else
      var me := s.requests[e.r];
      var t := Effect(s, me, e);
      Some(t.(requests := s.requests[e.r := Next(me, e).value]))
  }

  function Run(s: Pool, events: seq<Event>): Option<Pool>
    decreases |events|
  {
    if events == [] then Some(s)
    else
      match Step(s, events[0])
      case Some(t) => Run(t, events[1..])
      case None => None
  }

  const EMPTY: Pool := Pool(map[], {}, {}, map[])

  // ---------------------------------------------------------------- invariant

  /** Every callback of a request, however deeply nested, has the connection that
      the request acquired as the executor in its context. */
  ghost predicate FramesOk(me: Request) {
    if !me.phase.Running? then me.frames == []
    else
      && me.frames != [] && me.frames[0].tenant == me.tenant
      && forall k | 0 <= k < |me.frames| :: me.frames[k].ctx.executor == Some(me.phase.conn)
  }

  ghost predicate RequestOk(s: Pool, me: Request) {
    && me.acquired == (if me.phase.Called? || me.phase == Finished(Some(AcquireError)) then 0 else 1)
    && me.returned == (if me.phase.Finished? then me.acquired else 0)
    && ((me.phase.Clearing? || me.phase.Releasing?) ==> me.phase.result != Some(AcquireError))
    && me.ctx.executor.None?
    && FramesOk(me)
    && (Holds(me.phase) ==>
          && me.phase.conn in s.setting && me.phase.conn !in s.idle && me.phase.conn !in s.hooked)
    && (me.phase.Running? && !me.tampered ==> s.setting[me.phase.conn] == me.tenant)
    && (me.phase.Releasing? ==> s.setting[me.phase.conn] == "")
  }

  ghost predicate PoolOk(s: Pool) {
    && s.idle <= s.setting.Keys && s.hooked <= s.setting.Keys && s.idle !! s.hooked
    && forall c | c in s.idle :: s.setting[c] == ""
  }

  ghost predicate Exclusive(s: Pool) {
    forall q, r | q in s.requests && r in s.requests && q != r
                  && Holds(s.requests[q].phase) && Holds(s.requests[r].phase) ::
      s.requests[q].phase.conn != s.requests[r].phase.conn
  }

  ghost predicate Inv(s: Pool) {
    PoolOk(s) && Exclusive(s) && forall r | r in s.requests :: RequestOk(s, s.requests[r])
  }

  lemma PoolStepKeepsInv(s: Pool, e: Event)
    requires Inv(s) && IsPoolEvent(e) && PoolStep(s, e).Some?
    ensures Inv(PoolStep(s, e).value)
  {
  }

  lemma OwnStepKeeps(s: Pool, r: nat, e: Event)
    requires Inv(s) && !IsPoolEvent(e) && !e.Call? && e.r == r && Step(s, e).Some?
    ensures var t := Step(s, e).value;
            PoolOk(t) && RequestOk(t, t.requests[r])
  {
    assert RequestOk(s, s.requests[r]);
  }

  /** A call inside a callback adds a frame with the same executor. */
  lemma ReusingKeeps(s: Pool, q: nat, ctx: Context, tenant: string)
    requires Inv(s) && MayPass(s, Some(q), ctx) && ctx.executor.Some?
    ensures var me := s.requests[q];
            RequestOk(s, me.(frames := me.frames + [Frame(tenant, ctx)]))
  {
    assert RequestOk(s, s.requests[q]);
  }

  lemma CallKeepsInv(s: Pool, e: Event)
    requires Inv(s) && e.Call? && Step(s, e).Some?
    ensures Inv(Step(s, e).value)
  {
    var t := Step(s, e).value;
    if e.ctx.executor.Some? {
      ReusingKeeps(s, e.caller.value, e.ctx, e.tenant);
    }
    forall r | r in t.requests ensures RequestOk(t, t.requests[r]) {
      if r in s.requests {
        assert RequestOk(s, s.requests[r]);
        assert RequestOk(s, t.requests[r]);
      }
    }
  }

  lemma StepKeepsInv(s: Pool, e: Event)
    requires Inv(s) && Step(s, e).Some?
    ensures Inv(Step(s, e).value)
  {
    var t := Step(s, e).value;
    if IsPoolEvent(e) {
      PoolStepKeepsInv(s, e);
    } else if e.Call? {
      CallKeepsInv(s, e);
    } else {
      OwnStepKeeps(s, e.r, e);
      OthersKeep(s, e);
      StepKeepsExclusive(s, e);
    }
  }

  lemma OthersKeep(s: Pool, e: Event)
    requires Inv(s) && !IsPoolEvent(e) && !e.Call? && Step(s, e).Some?
    ensures var t := Step(s, e).value;
            forall q | q in t.requests && q != e.r :: RequestOk(t, t.requests[q])
  {
  }

  lemma StepKeepsExclusive(s: Pool, e: Event)
    requires Inv(s) && !IsPoolEvent(e) && !e.Call? && Step(s, e).Some?
    ensures Exclusive(Step(s, e).value)
  {
  }

  lemma {:induction false} RunsKeepInv(s: Pool, events: seq<Event>)
    requires Inv(s) && Run(s, events).Some?
    ensures Inv(Run(s, events).value)
    decreases |events|
  {
    if events != [] {
      StepKeepsInv(s, events[0]);
      RunsKeepInv(Step(s, events[0]).value, events[1..]);
    }
  }

  // ------------------------------------------------------- what runs guarantee

  /** In every reachable state no idle connection carries a tenant. */
  lemma IdleIsClean(events: seq<Event>, c: nat)
    requires Run(EMPTY, events).Some? && c in Run(EMPTY, events).value.idle
    ensures c in Run(EMPTY, events).value.setting && Run(EMPTY, events).value.setting[c] == ""
  {
    RunsKeepInv(EMPTY, events);
  }

  /** A callback runs on a connection set to its own tenant, held by no other
      request, unless the callback itself overwrote the setting. */
  lemma CallbackSeesItsTenant(events: seq<Event>, r: nat)
    requires Run(EMPTY, events).Some? && r in Run(EMPTY, events).value.requests
    requires Run(EMPTY, events).value.requests[r].phase.Running?
    ensures var s := Run(EMPTY, events).value;
            var c := s.requests[r].phase.conn;
            && c in s.setting && c !in s.idle && c !in s.hooked
            && (!s.requests[r].tampered ==> s.setting[c] == s.requests[r].tenant)
            && forall q | q in s.requests && q != r && Holds(s.requests[q].phase) :: s.requests[q].phase.conn != c
  {
    RunsKeepInv(EMPTY, events);
    var s := Run(EMPTY, events).value;
    assert RequestOk(s, s.requests[r]);
  }

  /** At every depth of nesting a callback finds in its context the connection that
      the outermost call acquired, and the session holds the outermost tenant,
      whatever tenant the nested call asked for. */
  lemma NestedCallsKeepTheTenant(events: seq<Event>, r: nat, depth: nat, fallback: Option<nat>)
    requires Run(EMPTY, events).Some? && r in Run(EMPTY, events).value.requests
    requires depth < |Run(EMPTY, events).value.requests[r].frames|
    ensures var s := Run(EMPTY, events).value;
            var me := s.requests[r];
            && me.phase.Running?
            && QuerierFromContext(me.frames[depth].ctx, fallback) == Some(me.phase.conn)
            && me.phase.conn in s.setting
            && me.frames[0].tenant == me.tenant
            && (!me.tampered ==> s.setting[me.phase.conn] == me.frames[0].tenant)
  {
    RunsKeepInv(EMPTY, events);
    var s := Run(EMPTY, events).value;
    assert RequestOk(s, s.requests[r]);
  }

  /** A call made while the pool is in any reachable state reuses a connection
      exactly when its context carries an executor: then it changes no session, no
      pool membership and nothing of its request but the frames; without one it is
      a new request, which has yet to acquire, and changes nothing else. */
  lemma CallReusesExactly(events: seq<Event>, r: nat, caller: Option<nat>, ctx: Context, tenant: string)
    requires Run(EMPTY, events).Some?
    requires Step(Run(EMPTY, events).value, Call(r, caller, ctx, tenant)).Some?
    ensures var s := Run(EMPTY, events).value;
            var t := Step(s, Call(r, caller, ctx, tenant)).value;
            && t.setting == s.setting && t.idle == s.idle && t.hooked == s.hooked
            && (t.requests.Keys == s.requests.Keys <==> ctx.executor.Some?)
            && (ctx.executor.Some? ==>
                  && caller.Some? && caller.value in s.requests
                  && var q, me := caller.value, s.requests[caller.value];
                     && me.phase == Running(ctx.executor.value)
                     && t.requests == s.requests[q := me.(frames := t.requests[q].frames)])
            && (ctx.executor.None? ==>
                  && r !in s.requests
                  && t.requests == s.requests[r := Request(tenant, ctx, Called, [], false, 0, 0)])
  {
    RunsKeepInv(EMPTY, events);
    var s := Run(EMPTY, events).value;
    if caller.Some? {
      assert RequestOk(s, s.requests[caller.value]);
    }
    var t := Step(s, Call(r, caller, ctx, tenant)).value;
    assert ctx.executor.None? ==> r in t.requests.Keys && r !in s.requests.Keys;
  }

  /** A request acquires at most one connection; once finished it has released or
      hijacked exactly what it acquired, and before that it has given back nothing. */
  lemma ReturnedExactlyOnce(events: seq<Event>, r: nat)
    requires Run(EMPTY, events).Some? && r in Run(EMPTY, events).value.requests
    ensures var me := Run(EMPTY, events).value.requests[r];
            && me.acquired == (if me.phase.Called? || me.phase == Finished(Some(AcquireError)) then 0 else 1)
            && me.returned == (if me.phase.Finished? then me.acquired else 0)
  {
    RunsKeepInv(EMPTY, events);
    var s := Run(EMPTY, events).value;
    assert RequestOk(s, s.requests[r]);
  }

  /** The connection is still held by a request whose set failed, or waits for the
      release hook. */
  ghost predicate Parked(s: Pool, r: nat, c: nat) {
    && c in s.setting && c !in s.idle
    && (c in s.hooked || (r in s.requests && s.requests[r].phase == SetFailed(c)))
  }

  lemma StaysParked(s: Pool, e: Event, r: nat, c: nat)
    requires Inv(s) && Parked(s, r, c) && Step(s, e).Some?
    requires e != HookClears(c) && e != HookFails(c)
    ensures var t := Step(s, e).value;
            Parked(t, r, c) && t.setting[c] == s.setting[c]
  {
    if !IsPoolEvent(e) && !e.Call? {
      assert RequestOk(s, s.requests[e.r]);
      if r in s.requests {
        assert RequestOk(s, s.requests[r]);
      }
    }
  }

  /** After a failed set only the release hook can end it: until it runs on the
      connection, whatever else happens, the session stays as the failed set left
      it, the connection is not idle, and no other request gets it. */
  lemma {:induction false} FailedSetWaitsForTheHook(s: Pool, events: seq<Event>, r: nat, c: nat)
    requires Inv(s) && Parked(s, r, c) && Run(s, events).Some?
    requires HookClears(c) !in events && HookFails(c) !in events
    ensures var t := Run(s, events).value;
            && Parked(t, r, c) && t.setting[c] == s.setting[c]
            && forall q | q in t.requests && q != r && Holds(t.requests[q].phase) :: t.requests[q].phase.conn != c
    decreases |events|
  {
    if events == [] {
      forall q | q in s.requests && q != r && Holds(s.requests[q].phase) ensures s.requests[q].phase.conn != c {
        assert RequestOk(s, s.requests[q]);
      }
    } else {
      StepKeepsInv(s, events[0]);
      StaysParked(s, events[0], r, c);
      FailedSetWaitsForTheHook(Step(s, events[0]).value, events[1..], r, c);
    }
  }

  lemma {:induction false} IdleOnlyByTheHook(s: Pool, events: seq<Event>, c: nat)
    requires c !in s.idle && HookClears(c) !in events && Run(s, events).Some?
    ensures c !in Run(s, events).value.idle
    decreases |events|
  {
    if events != [] {
      assert events[0] != HookClears(c);
      IdleOnlyByTheHook(Step(s, events[0]).value, events[1..], c);
    }
  }

  /** So in every run a connection whose set failed is idle again only after the
      hook has cleared it. */
  lemma FailedSetIsClearedByTheHook(before: seq<Event>, after: seq<Event>, r: nat, c: nat)
    requires Run(EMPTY, before).Some? && Run(Run(EMPTY, before).value, after).Some?
    requires r in Run(EMPTY, before).value.requests && Run(EMPTY, before).value.requests[r].phase == SetFailed(c)
    ensures c in Run(Run(EMPTY, before).value, after).value.idle ==> HookClears(c) in after
  {
    var s := Run(EMPTY, before).value;
    RunsKeepInv(EMPTY, before);
    assert RequestOk(s, s.requests[r]);
    if HookClears(c) !in after {
      IdleOnlyByTheHook(s, after, c);
    }
  }

  // ----------------------------------------------------------------- progress

  /** The next step of an unfinished request towards its end. */
  function Onward(r: nat, me: Request): Event {
    match me.phase
    case Called => AcquireFails(r)
    case Acquired(_) => SetTenant(r)
    case Running(_) => if |me.frames| > 1 then Leave(r) else Return(r, None)
    case Clearing(_, _) => Clear(r)
    case _ => Release(r)
  }

  function StepsLeft(me: Request): nat {
    match me.phase
    case Called => 1
    case Acquired(_) => 4
    case Running(_) => |me.frames| + 2
    case Clearing(_, _) => 2
    case Finished(_) => 0
    case _ => 1
  }

  /** The sessions and the pool apart from one connection. */
  ghost predicate SameBut(s: Pool, t: Pool, c: nat) {
    && t.setting.Keys == s.setting.Keys && t.setting - {c} == s.setting - {c}
    && t.idle == s.idle && t.hooked - {c} == s.hooked - {c}
  }

  lemma OnwardSteps(s: Pool, r: nat)
    requires r in s.requests && !s.requests[r].phase.Finished? && RequestOk(s, s.requests[r])
    ensures var me, next := s.requests[r], Step(s, Onward(r, s.requests[r]));
            && next.Some? && r in next.value.requests && next.value.requests - {r} == s.requests - {r}
            && StepsLeft(next.value.requests[r]) == StepsLeft(me) - 1
  {
  }

  lemma OnwardKeeps(s: Pool, r: nat)
    requires r in s.requests && Holds(s.requests[r].phase) && RequestOk(s, s.requests[r])
    requires Step(s, Onward(r, s.requests[r])).Some?
    ensures var c, t := s.requests[r].phase.conn, Step(s, Onward(r, s.requests[r])).value;
            && SameBut(s, t, c) && r in t.requests
            && if Holds(t.requests[r].phase) then t.requests[r].phase.conn == c else c in t.hooked
  {
  }

  /** A request can always finish on its own, without any other request moving, and what
      it held is then waiting for the release hook. */
  lemma {:induction false} FinishesAlone(s: Pool, r: nat) returns (events: seq<Event>)
    requires Inv(s) && r in s.requests
    ensures var me := s.requests[r];
            && |events| == StepsLeft(me) && Run(s, events).Some?
            && var t := Run(s, events).value;
               && r in t.requests && t.requests[r].phase.Finished? && t.requests - {r} == s.requests - {r}
               && (Holds(me.phase) ==> me.phase.conn in t.hooked && SameBut(s, t, me.phase.conn))
    decreases StepsLeft(s.requests[r])
  {
    var me := s.requests[r];
    if me.phase.Finished? {
      return [];
    }
    assert RequestOk(s, me);
    OnwardSteps(s, r);
    StepKeepsInv(s, Onward(r, me));
    if Holds(me.phase) {
      OnwardKeeps(s, r);
    }
    var t := Step(s, Onward(r, me)).value;
    var rest := FinishesAlone(t, r);
    events := [Onward(r, me)] + rest;
    assert events[1..] == rest;
  }
}
