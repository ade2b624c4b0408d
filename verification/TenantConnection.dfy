/** WithTenantConnection as written: the executor in its context, its two flags and
    its deferred cleanup, shown to take only steps of the pool protocol. */
module TenantConnection {
  import opened Wrappers
  import opened TenantPool

  // ------------------------------------------------------------- one request

  ghost predicate Reaches(s: Pool, t: Pool) {
    exists events :: Run(s, events) == Some(t)
  }

  lemma {:induction false} RunSnoc(s: Pool, events: seq<Event>, e: Event)
    requires Run(s, events).Some?
    ensures Run(s, events + [e]) == Step(Run(s, events).value, e)
    decreases |events|
  {
    if events == [] {
      assert events + [e] == [e] && [e][1..] == [];
    } else {
      assert (events + [e])[1..] == events[1..] + [e];
      RunSnoc(Step(s, events[0]).value, events[1..], e);
    }
  }

  lemma ReachStep(s: Pool, t: Pool, e: Event)
    requires Reaches(s, t) && Step(t, e).Some?
    ensures Reaches(s, Step(t, e).value)
  {
    var events :| Run(s, events) == Some(t);
    RunSnoc(s, events, e);
  }

  /** What one connection's server session and pool membership look like. */
  datatype Place = Idle | Held | Hooked | Closed

  /** Request 0 alone with the pool's one connection, numbered 1. */
  ghost function Solo(setting: string, place: Place, me: Request): Pool {
    Pool(if place.Closed? then map[] else map[1 := setting],
         if place.Idle? then {1} else {}, if place.Hooked? then {1} else {}, map[0 := me])
  }

  lemma ReachSolo(s: Pool, setting: string, place: Place, me: Request, e: Event, setting': string, place': Place)
    requires Reaches(s, Solo(setting, place, me))
    requires !IsPoolEvent(e) && !e.Call? && !e.AcquireNew? && e.r == 0 && Next(me, e).Some?
    requires e.AcquireIdle? ==> place.Idle? && e.conn == 1
    requires var t, u := Effect(Solo(setting, place, me), me, e), Solo(setting', place', me);
             t.setting == u.setting && t.idle == u.idle && t.hooked == u.hooked
    ensures Reaches(s, Solo(setting', place', Next(me, e).value))
  {
    var t := Solo(setting, place, me);
    assert t.requests[0 := Next(me, e).value] == map[0 := Next(me, e).value];
    ReachStep(s, t, e);
  }

  lemma ReachCall(s: Pool, setting: string, me: Request, ctx: Context, tenant: string)
    requires Reaches(s, Solo(setting, Held, me)) && Inside(me, ctx)
    ensures Reaches(s, Solo(setting, Held, me.(frames := me.frames + [Frame(tenant, ctx)])))
  {
    var t, after := Solo(setting, Held, me), me.(frames := me.frames + [Frame(tenant, ctx)]);
    assert t.requests[0 := after] == map[0 := after];
    ReachStep(s, t, Call(1, Some(0), ctx, tenant));
  }

  lemma ReachHook(s: Pool, setting: string, me: Request, fails: bool)
    requires Reaches(s, Solo(setting, Hooked, me))
    ensures Reaches(s, Solo("", if fails then Closed else Idle, me))
  {
    var t := Solo(setting, Hooked, me);
    var e := if fails then HookFails(1) else HookClears(1);
    assert Step(t, e).Some?;
    var u := Solo("", if fails then Closed else Idle, me);
    var v := Step(t, e).value;
    assert v.setting == u.setting && v.idle == u.idle && v.hooked == u.hooked;
    ReachStep(s, t, e);
  }

  // --------------------------------------------------------------- callbacks

  datatype Verdict = Succeeds | Fails | Panics

  function ErrorOf(v: Verdict): Option<Error> {
    match v
    case Succeeds => None
    case Fails => Some(CallbackError)
    case Panics => Some(Panic)
  }

  /** What a callback does to the session: it may set the tenant itself, make nested
      calls, passing its context on, and finally return or panic. */
  datatype Callback =
    | Return(verdict: Verdict)
    | Overwriting(tenant: string, rest: Callback)
    | Nesting(tenant: string, inner: Callback, rest: Callback)

  /** A panic inside a nested call unwinds its caller too. */
  function VerdictOf(fn: Callback): Verdict {
    match fn
    case Return(v) => v
    case Overwriting(_, rest) => VerdictOf(rest)
    case Nesting(_, inner, rest) => if VerdictOf(inner).Panics? then Panics else VerdictOf(rest)
  }

  /** Some code the callback reaches, at any depth, sets the tenant itself. */
  predicate Overwrites(fn: Callback) {
    match fn
    case Return(_) => false
    case Overwriting(_, _) => true
    case Nesting(_, inner, rest) => Overwrites(inner) || (!VerdictOf(inner).Panics? && Overwrites(rest))
  }

  /** A callback of the request is running with the context or one derived from it. */
  predicate Inside(me: Request, ctx: Context) {
    && me.phase == Running(1) && me.frames != []
    && ctx.executor == me.frames[|me.frames| - 1].ctx.executor == Some(1)
  }

  /** The request after a callback inside it: only its frames, which a panic leaves
      to be unwound, and its mark of overwriting may differ. */
  predicate AfterCallback(before: Request, after: Request, fn: Callback) {
    && after == before.(frames := after.frames, tampered := before.tampered || Overwrites(fn))
    && before.frames <= after.frames
    && (!VerdictOf(fn).Panics? ==> after.frames == before.frames)
  }

  /** How the server answers, and whether a connection could be acquired at all. */
  datatype Answers = Answers(acquireFails: bool, setFails: bool, setApplied: bool, clearFails: bool)

  /** The connection and the request that may hold it. The ghost fields follow the
      request through the protocol. */
  class Connection {
    var setting: string
    var place: Place
    ghost var start: Pool
    ghost var me: Request

    /** Everything done so far is a run of the protocol. */
    ghost predicate OnTrack()
      reads this
    {
      Reaches(start, Solo(setting, place, me))
    }

    /** At rest, with a call about to acquire it. */
    constructor (ctx: Context, tenantID: string)
      ensures setting == "" && place == Idle
      ensures me == Request(tenantID, ctx, Called, [], false, 0, 0)
      ensures start == Solo(setting, Idle, me) && OnTrack()
    {
      setting := "";
      place := Idle;
      me := Request(tenantID, ctx, Called, [], false, 0, 0);
      start := Solo("", Idle, Request(tenantID, ctx, Called, [], false, 0, 0));
      new;
      assert Run(start, []) == Some(start);
    }

    method Acquire(fails: bool)
      requires OnTrack() && place.Idle? && me.phase == Called
      modifies this
      ensures OnTrack() && start == old(start) && setting == old(setting)
      ensures place == if fails then Idle else Held
      ensures me == if fails then old(me).(phase := Finished(Some(AcquireError)))
                    else old(me).(phase := TenantPool.Acquired(1), acquired := old(me).acquired + 1)
    {
      var e := if fails then AcquireFails(0) else AcquireIdle(0, 1);
      ReachSolo(start, setting, Idle, me, e, setting, if fails then Idle else Held);
      if fails {
        me := me.(phase := Finished(Some(AcquireError)));
      } else {
        me := me.(phase := TenantPool.Acquired(1), acquired := me.acquired + 1);
        place := Held;
      }
    }

    method ExecSet(tenantID: string, fails: bool, applied: bool)
      requires OnTrack() && place.Held? && me.phase == TenantPool.Acquired(1) && me.tenant == tenantID
      modifies this
      ensures OnTrack() && place.Held? && start == old(start)
      ensures me == if fails then old(me).(phase := SetFailed(1))
                    else old(me).(phase := Running(1), frames := [Frame(tenantID, WithQuerier(old(me).ctx, 1))])
      ensures setting == if fails && !applied then old(setting) else tenantID
    {
      var e := if fails then SetTenantFails(0, applied) else SetTenant(0);
      ReachSolo(start, setting, Held, me, e, if fails && !applied then setting else tenantID, Held);
      me := if fails then me.(phase := SetFailed(1))
            else me.(phase := Running(1), frames := [Frame(tenantID, WithQuerier(me.ctx, 1))]);
      if !fails || applied {
        setting := tenantID;
      }
    }

    method Overwrite(tenant: string)
      requires OnTrack() && place.Held? && me.phase == Running(1)
      modifies this
      ensures OnTrack() && place.Held? && start == old(start)
      ensures me == old(me).(tampered := true) && setting == tenant
    {
      ReachSolo(start, setting, Held, me, TenantPool.Overwrite(0, tenant), tenant, Held);
      setting := tenant;
      me := me.(tampered := true);
    }

    ghost method Enter(ctx: Context, tenant: string)
      requires OnTrack() && place.Held? && Inside(me, ctx)
      modifies this`me
      ensures OnTrack() && me == old(me).(frames := old(me).frames + [Frame(tenant, ctx)]) && Inside(me, ctx)
    {
      ReachCall(start, setting, me, ctx, tenant);
      me := me.(frames := me.frames + [Frame(tenant, ctx)]);
    }

    ghost method Leave()
      requires OnTrack() && place.Held? && me.phase == Running(1) && |me.frames| > 1
      modifies this`me
      ensures OnTrack() && me == old(me).(frames := old(me).frames[..|old(me).frames| - 1])
    {
      ReachSolo(start, setting, Held, me, TenantPool.Leave(0), setting, Held);
      me := me.(frames := me.frames[..|me.frames| - 1]);
    }

    /** The outermost callback has returned, or something inside it has panicked. */
    ghost method Unwind(verdict: Verdict)
      requires OnTrack() && place.Held? && me.phase == Running(1) && (|me.frames| == 1 || verdict.Panics?)
      modifies this`me
      ensures OnTrack() && me == old(me).(phase := Clearing(1, ErrorOf(verdict)), frames := [])
    {
      ReachSolo(start, setting, Held, me, TenantPool.Return(0, ErrorOf(verdict)), setting, Held);
      me := me.(phase := Clearing(1, ErrorOf(verdict)), frames := []);
    }

    method ExecClear()
      requires OnTrack() && place.Held? && me.phase.Clearing? && me.phase.conn == 1
      modifies this
      ensures OnTrack() && place.Held? && start == old(start) && setting == ""
      ensures me == old(me).(phase := TenantPool.Releasing(1, old(me).phase.result))
    {
      ReachSolo(start, setting, Held, me, Clear(0), "", Held);
      me := me.(phase := TenantPool.Releasing(1, me.phase.result));
      setting := "";
    }

    method HijackAndClose()
      requires OnTrack() && place.Held? && me.phase.Clearing? && me.phase.conn == 1
      modifies this
      ensures OnTrack() && place.Closed? && start == old(start)
      ensures var was := old(me).phase.result;
              me == old(me).(phase := Finished(if was.None? then Some(ClearError) else was),
                             returned := old(me).returned + 1)
    {
      ReachSolo(start, setting, Held, me, ClearFails(0), setting, Closed);
      me := me.(phase := Finished(if me.phase.result.None? then Some(ClearError) else me.phase.result),
                returned := me.returned + 1);
      place := Closed;
    }

    method GiveBack()
      requires OnTrack() && place.Held?
      requires me.phase == SetFailed(1) || (me.phase.Releasing? && me.phase.conn == 1)
      modifies this
      ensures OnTrack() && place.Hooked? && start == old(start) && setting == old(setting)
      ensures var was := old(me).phase;
              me == old(me).(phase := Finished(if was.SetFailed? then Some(SetError) else was.result),
                             returned := old(me).returned + 1)
    {
      ReachSolo(start, setting, Held, me, TenantPool.Release(0), setting, Hooked);
      me := me.(phase := Finished(if me.phase.SetFailed? then Some(SetError) else me.phase.result),
                returned := me.returned + 1);
      place := Hooked;
    }

    /** The release hook is a step of the protocol: the connection goes back to the
        idle ones with an empty tenant, or it is discarded. */
    method ClearTenantContext(fails: bool) returns (kept: bool)
      requires OnTrack() && place.Hooked?
      modifies this
      ensures OnTrack() && start == old(start) && me == old(me)
      ensures if kept then place.Idle? && setting == "" else place.Closed?
      ensures kept == !fails
    {
      ReachHook(start, setting, me, fails);
      setting := "";
      place := if fails then Closed else Idle;
      kept := !fails;
    }
  }

  /** A callback runs with its context. Whatever it nests, and whatever tenants the
      nested calls ask for, the connection stays held, and its setting stays what it
      was unless some code sets it itself. */
  method Invoke(conn: Connection, ctx: Context, fn: Callback) returns (verdict: Verdict)
    requires conn.OnTrack() && conn.place.Held? && Inside(conn.me, ctx)
    modifies conn
    ensures conn.OnTrack() && conn.place.Held? && conn.start == old(conn.start)
    ensures verdict == VerdictOf(fn) && AfterCallback(old(conn.me), conn.me, fn)
    ensures !Overwrites(fn) ==> conn.setting == old(conn.setting)
    decreases fn, 0
  {
    match fn
    case Return(v) =>
      verdict := v;
    case Overwriting(tenant, rest) =>
      conn.Overwrite(tenant);
      verdict := Invoke(conn, ctx, rest);
    case Nesting(tenant, inner, rest) =>
      var nested := WithTenantConnection(conn, ctx, tenant, inner, Answers(false, false, false, false));
      if nested == ErrorOf(Panics) {
        return Panics;
      }
      verdict := Invoke(conn, ctx, rest);
  }

  /** The deferred function: after a successful set the tenant is cleared, or else
      the connection never goes back; the callback's own error is kept. */
  method Deferred(conn: Connection, tenantSet: bool, clearFails: bool, returnErr: Option<Error>)
    returns (result: Option<Error>)
    requires conn.OnTrack() && conn.place.Held?
    requires if tenantSet then conn.me.phase == Clearing(1, returnErr)
             else conn.me.phase == SetFailed(1) && returnErr == Some(SetError)
    modifies conn
    ensures conn.OnTrack() && conn.start == old(conn.start)
    ensures conn.me == old(conn.me).(phase := Finished(result), returned := old(conn.me).returned + 1)
    ensures conn.place == if tenantSet && clearFails then Closed else Hooked
    ensures conn.place.Hooked? ==> conn.setting == if tenantSet then "" else old(conn.setting)
    ensures result == if tenantSet && clearFails && returnErr.None? then Some(ClearError) else returnErr
  {
    result := returnErr;
    var release := true;
    if tenantSet {
      if clearFails {
        release := false;
        conn.HijackAndClose();
        if result.None? {
          result := Some(ClearError);
        }
      } else {
        conn.ExecClear();
      }
    }
    if release {
      conn.GiveBack();
    }
  }

  /** The early return: the callback runs with the context as it is. */
  method CallInside(conn: Connection, ctx: Context, tenantID: string, fn: Callback) returns (result: Option<Error>)
    requires conn.OnTrack() && conn.place.Held? && Inside(conn.me, ctx)
    modifies conn
    ensures conn.OnTrack() && conn.place.Held? && conn.start == old(conn.start)
    ensures result == ErrorOf(VerdictOf(fn)) && AfterCallback(old(conn.me), conn.me, fn)
    ensures !Overwrites(fn) ==> conn.setting == old(conn.setting)
    decreases fn, 1
  {
    conn.Enter(ctx, tenantID);
    var verdict := Invoke(conn, ctx, fn);
    if verdict != Panics {
      conn.Leave();
    }
    result := ErrorOf(verdict);
  }

  /** From the acquired connection on: set, callback, deferred function. */
  method CallAcquired(conn: Connection, ctx: Context, tenantID: string, fn: Callback, answers: Answers)
    returns (result: Option<Error>)
    requires conn.OnTrack() && conn.place.Held? && !answers.acquireFails
    requires conn.me == Request(tenantID, ctx, Acquired(1), [], false, 1, 0)
    modifies conn
    ensures conn.OnTrack() && conn.start == old(conn.start)
    ensures conn.me.phase == Finished(result) && conn.me.acquired == conn.me.returned == 1
    ensures conn.place == if answers.clearFails && !answers.setFails then Closed else Hooked
    ensures conn.place.Hooked? ==>
            conn.setting == if !answers.setFails then "" else if answers.setApplied then tenantID else old(conn.setting)
    ensures result == if answers.setFails then Some(SetError)
                      else if !VerdictOf(fn).Succeeds? then ErrorOf(VerdictOf(fn))
                      else if answers.clearFails then Some(ClearError) else None
    decreases fn, 1
  {
    conn.ExecSet(tenantID, answers.setFails, answers.setApplied);
    if answers.setFails {
      result := Deferred(conn, false, answers.clearFails, Some(SetError));
      return;
    }
    var verdict := Invoke(conn, WithQuerier(ctx, 1), fn);
    conn.Unwind(verdict);
    result := Deferred(conn, true, answers.clearFails, ErrorOf(verdict));
  }

  /** With an executor in its context a call runs its callback there and then.
      Without one it acquires a connection: whatever fails, it takes only protocol
      steps; the connection is released or closed, once; after a successful set it
      is never released uncleared; and the callback's own error is kept. */
  method WithTenantConnection(conn: Connection, ctx: Context, tenantID: string, fn: Callback, answers: Answers)
    returns (result: Option<Error>)
    requires conn.OnTrack()
    requires if QuerierFromContext(ctx, None).Some? then conn.place.Held? && Inside(conn.me, ctx)
             else conn.place.Idle? && conn.me == Request(tenantID, ctx, Called, [], false, 0, 0)
    modifies conn
    ensures conn.OnTrack() && conn.start == old(conn.start)
    ensures ctx.executor.Some? ==>
            && conn.place.Held? && result == ErrorOf(VerdictOf(fn))
            && AfterCallback(old(conn.me), conn.me, fn)
            && (!Overwrites(fn) ==> conn.setting == old(conn.setting))
    ensures ctx.executor.None? ==>
            && conn.me.phase == Finished(result)
            && conn.me.acquired == conn.me.returned == (if answers.acquireFails then 0 else 1)
            && conn.place == (if answers.acquireFails then Idle
                              else if answers.clearFails && !answers.setFails then Closed else Hooked)
            && (conn.place.Hooked? ==>
                  conn.setting == if !answers.setFails then ""
                                  else if answers.setApplied then tenantID else old(conn.setting))
            && (conn.place.Idle? ==> conn.setting == old(conn.setting))
            && result == (if answers.acquireFails then Some(AcquireError)
                          else if answers.setFails then Some(SetError)
                          else if !VerdictOf(fn).Succeeds? then ErrorOf(VerdictOf(fn))
                          else if answers.clearFails then Some(ClearError) else None)
    decreases fn, 2
  {
    if QuerierFromContext(ctx, None).Some? {
      result := CallInside(conn, ctx, tenantID, fn);
      return;
    }
    conn.Acquire(answers.acquireFails);
    if answers.acquireFails {
      return Some(AcquireError);
    }
    result := CallAcquired(conn, ctx, tenantID, fn, answers);
  }

  /** An outermost call and what the pool does with its connection afterwards: in
      the end the connection is idle with an empty tenant, or it is gone. */
  method CallAndRelease(conn: Connection, tenantID: string, fn: Callback, answers: Answers, hookFails: bool)
    returns (result: Option<Error>)
    requires conn.OnTrack() && conn.place.Idle? && conn.setting == ""
    requires conn.me == Request(tenantID, BACKGROUND, Called, [], false, 0, 0)
    modifies conn
    ensures conn.OnTrack() && conn.start == old(conn.start) && conn.me.phase == Finished(result)
    ensures (conn.place.Idle? && conn.setting == "") || conn.place.Closed?
    ensures conn.place.Closed? <==> !answers.acquireFails && (hookFails || (answers.clearFails && !answers.setFails))
  {
    result := WithTenantConnection(conn, BACKGROUND, tenantID, fn, answers);
    if conn.place == Hooked {
      var _ := conn.ClearTenantContext(hookFails);
    }
  }
}
