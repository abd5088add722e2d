/**
 * The callback registry (`CallbackRegistryType`): a backend function that is
 * serialised into a page gets an opaque identifier, and the frontend later
 * posts that identifier back to have the function called.
 *
 * A callback is abstracted to its identity and the number of parameters its
 * signature declares; calling it is described by an `Invocation` (which
 * callback, on which arguments). What the callback computes is foreign code
 * and enters only through the `run` parameter of `HandlePageAction`.
 */
module Callbacks {
  import opened Wrappers
  import opened Uuids
  import opened Errors

  /** A backend function: `ident` stands for its equality class as a
      dictionary key (identity for a plain function, the pair of bound object
      and function for a bound method), `arity` for
      `len(signature(f).parameters)`, which that class determines. */
  datatype Callback = Callback(ident: nat, arity: nat)

  /** A call of `callback` on exactly `args`. */
  datatype Invocation<A> = Invocation(callback: Callback, args: seq<A>)

  /** The registry's state: both dictionaries and the clock behind `uuid1()`. */
  datatype Registry = Registry(byUuid: map<Uuid, Callback>, byCallback: map<Callback, Uuid>, clock: nat)

  const EmptyRegistry := Registry(map[], map[], 0)

  /** The two dictionaries are inverses of each other, and every identifier in
      use was issued at an earlier clock reading. */
  ghost predicate Consistent(r: Registry)
  {
    && (forall cb :: cb in r.byCallback ==> r.byCallback[cb] in r.byUuid && r.byUuid[r.byCallback[cb]] == cb)
    && (forall u :: u in r.byUuid ==> r.byUuid[u] in r.byCallback && r.byCallback[r.byUuid[u]] == u)
    && (forall u :: u in r.byUuid ==> exists t: nat :: t < r.clock && UuidAt(t) == u)
  }

  /** Python's `args[:n]`: the first `n` arguments, or all of them when there are fewer. */
  function Truncate<A>(args: seq<A>, n: nat): (r: seq<A>)
    ensures |r| == Min(|args|, n)
    ensures r <= args
  {
    if n <= |args| then args[..n] else args
  }

  /** `uuid_for_callback`: `None` for no callback, the cached identifier for a
      callback already seen, otherwise a fresh identifier entered in both maps. */
  function Register(r: Registry, callback: Option<Callback>): (Registry, Option<Uuid>)
  {
    match callback
    case None => (r, None)
    case Some(cb) =>
      if cb in r.byCallback then (r, Some(r.byCallback[cb]))
      else
        var u := UuidAt(r.clock);
        (Registry(r.byUuid[u := cb], r.byCallback[cb := u], r.clock + 1), Some(u))
  }

  /** `make_callback`: the call made for identifier `uuid`, if it is known. */
  function Invoke<A>(r: Registry, uuid: Uuid, args: seq<A>): (inv: Option<Invocation<A>>)
    ensures uuid !in r.byUuid ==> inv == None
    ensures uuid in r.byUuid ==>
      && inv.Some?
      && inv.value.callback == r.byUuid[uuid]
      && inv.value.args <= args
      && |inv.value.args| == Min(|args|, r.byUuid[uuid].arity)
  {
    if uuid in r.byUuid then
      var cb := r.byUuid[uuid];
      Some(Invocation(cb, Truncate(args, cb.arity)))
    else
      None
  }

  /** The identifier the next fresh callback gets is not yet in use. */
  lemma NextUuidIsFresh(r: Registry)
    requires Consistent(r)
    ensures UuidAt(r.clock) !in r.byUuid
  {
    if UuidAt(r.clock) in r.byUuid {
      var t: nat :| t < r.clock && UuidAt(t) == UuidAt(r.clock);
      UuidAtInjective(t, r.clock);
    }
  }

  lemma EmptyRegistryConsistent()
    ensures Consistent(EmptyRegistry)
  {
  }

  /** Registration keeps the two maps mutual inverses. */
  lemma RegisterKeepsConsistent(r: Registry, callback: Option<Callback>)
    requires Consistent(r)
    ensures Consistent(Register(r, callback).0)
  {
    if callback.Some? && callback.value !in r.byCallback {
      NextUuidIsFresh(r);
      var r' := Register(r, callback).0;
      forall u | u in r'.byUuid
        ensures exists t: nat :: t < r'.clock && UuidAt(t) == u
      {
        if u != UuidAt(r.clock) {
          var t: nat :| t < r.clock && UuidAt(t) == u;
          assert t < r'.clock;
        }
      }
    }
  }

  /** Registering `None` gives `None` and changes nothing. */
  lemma RegisterNone(r: Registry)
    ensures Register(r, None) == (r, None)
  {
  }

  /** After registering a callback (new or not) its identifier leads back to
      it, and it leads to its identifier. */
  lemma RegisterThenLookUp(r: Registry, cb: Callback)
    requires Consistent(r)
    ensures Register(r, Some(cb)).1.Some?
    ensures var (r', u) := Register(r, Some(cb));
      && u.value in r'.byUuid && r'.byUuid[u.value] == cb
      && cb in r'.byCallback && r'.byCallback[cb] == u.value
  {
  }

  /** A callback already registered gets its cached identifier back and the
      registry does not change. */
  lemma RegisterCached(r: Registry, cb: Callback)
    requires cb in r.byCallback
    ensures Register(r, Some(cb)) == (r, Some(r.byCallback[cb]))
  {
  }

  /** A new callback gets an identifier that no callback had before; every
      earlier entry stays as it was. */
  lemma RegisterFresh(r: Registry, cb: Callback)
    requires Consistent(r)
    requires cb !in r.byCallback
    ensures var (r', u) := Register(r, Some(cb));
      && u.Some? && u.value !in r.byUuid
      && r'.byUuid == r.byUuid[u.value := cb]
      && r'.byCallback == r.byCallback[cb := u.value]
  {
    NextUuidIsFresh(r);
  }

  /** Registering is idempotent: a second registration of the same callback
      returns the same identifier and changes nothing further. */
  lemma RegisterIdempotent(r: Registry, callback: Option<Callback>)
    ensures var (r1, u1) := Register(r, callback);
      Register(r1, callback) == (r1, u1)
  {
  }

  /** Entries are never evicted or rebound. */
  lemma RegisterKeepsEntries(r: Registry, callback: Option<Callback>)
    requires Consistent(r)
    ensures var r' := Register(r, callback).0;
      && (forall u :: u in r.byUuid ==> u in r'.byUuid && r'.byUuid[u] == r.byUuid[u])
      && (forall cb :: cb in r.byCallback ==> cb in r'.byCallback && r'.byCallback[cb] == r.byCallback[cb])
  {
    if callback.Some? && callback.value !in r.byCallback {
      NextUuidIsFresh(r);
    }
  }

  /** In a consistent registry distinct callbacks have distinct identifiers. */
  lemma DistinctCallbacksDistinctUuids(r: Registry, c1: Callback, c2: Callback)
    requires Consistent(r)
    requires c1 in r.byCallback && c2 in r.byCallback && c1 != c2
    ensures r.byCallback[c1] != r.byCallback[c2]
  {
  }

  /** Registering two distinct callbacks one after the other yields two
      distinct identifiers. */
  lemma RegisterTwoDistinct(r: Registry, c1: Callback, c2: Callback)
    requires Consistent(r)
    requires c1 != c2
    ensures var (r1, u1) := Register(r, Some(c1));
      var (r2, u2) := Register(r1, Some(c2));
      u1 != u2
  {
    RegisterKeepsConsistent(r, Some(c1));
    var (r1, u1) := Register(r, Some(c1));
    RegisterThenLookUp(r, c1);
    RegisterKeepsConsistent(r1, Some(c2));
    RegisterKeepsEntries(r1, Some(c2));
    RegisterThenLookUp(r1, c2);
    var (r2, u2) := Register(r1, Some(c2));
    DistinctCallbacksDistinctUuids(r2, c1, c2);
  }

  /** Invoking the identifier a callback was registered under calls that
      callback on the leading `arity` arguments; extra arguments are dropped. */
  lemma InvokeRegistered<A>(r: Registry, cb: Callback, args: seq<A>)
    requires Consistent(r)
    ensures var (r', u) := Register(r, Some(cb));
      && u.Some?
      && Invoke(r', u.value, args) == Some(Invocation(cb, Truncate(args, cb.arity)))
  {
    RegisterThenLookUp(r, cb);
  }

  /** Arguments beyond the callback's arity never influence the call. */
  lemma InvokeIgnoresExtraArgs<A>(r: Registry, uuid: Uuid, args: seq<A>, extra: seq<A>)
    requires uuid in r.byUuid
    requires |args| >= r.byUuid[uuid].arity
    ensures Invoke(r, uuid, args + extra) == Invoke(r, uuid, args)
  {
    var n := r.byUuid[uuid].arity;
    assert (args + extra)[..n] == args[..n];
  }

  /** The body of a `page_action` request: `cb_uuid` and, optionally, `args`. */
  datatype ActionRequest<A> = ActionRequest(cbUuid: Uuid, args: Option<seq<A>>)

  /** What `handle_page_action` answers: the callback's response, or the
      "No Action" error (error type "204"). */
  datatype ActionReply<R> = Reply(value: R) | NoAction

  /** The error element `handle_page_action` returns, if any. */
  function ActionError<R>(reply: ActionReply<R>): (e: Option<ErrorResponse>)
    ensures e.Some? <==> reply.NoAction?
    ensures reply.NoAction? ==> e.value.errorType == "204" && e.value.title == "No Action"
  {
    match reply
    case NoAction => Some(ErrorResponse("No Action", DefaultErrorMessage, "204"))
    case Reply(_) => None
  }

  /** `handle_page_action`: missing `args` become `[]`; an unknown identifier, or
      a callback that returns `None`, gives `NoAction`. `run` stands for the
      behaviour of the registered backend functions. */
  function HandlePageAction<A, R>(r: Registry, msg: ActionRequest<A>, run: Invocation<A> -> Option<R>): (reply: ActionReply<R>)
    ensures msg.cbUuid !in r.byUuid ==> reply == NoAction
    ensures msg.cbUuid in r.byUuid ==>
      var args := if msg.args.Some? then msg.args.value else [];
      var call := Invocation(r.byUuid[msg.cbUuid], Truncate(args, r.byUuid[msg.cbUuid].arity));
      reply == (if run(call).Some? then Reply(run(call).value) else NoAction)
  {
    var args := if msg.args.Some? then msg.args.value else [];
    match Invoke(r, msg.cbUuid, args)
    case None => NoAction
    case Some(call) =>
      match run(call)
      case None => NoAction
      case Some(response) => Reply(response)
  }

  /** An absent `args` field behaves as an empty argument list. */
  lemma PageActionDefaultArgs<A, R>(r: Registry, id: Uuid, run: Invocation<A> -> Option<R>)
    ensures HandlePageAction(r, ActionRequest(id, None), run) == HandlePageAction(r, ActionRequest(id, Some([])), run)
  {
  }

  /**
   * The process-wide registry object. Its two dictionaries are updated in
   * place; `clock` is the state of the identifier source.
   */
  class CallbackRegistryType {
    var uuidCallbackMap: map<Uuid, Callback>
    var callbackUuidMap: map<Callback, Uuid>
    var clock: nat

    function State(): Registry
      reads this
    {
      Registry(uuidCallbackMap, callbackUuidMap, clock)
    }

    ghost predicate Valid()
      reads this
    {
      Consistent(State())
    }

    constructor ()
      ensures Valid()
      ensures uuidCallbackMap == map[] && callbackUuidMap == map[]
    {
      uuidCallbackMap := map[];
      callbackUuidMap := map[];
      clock := 0;
    }

    /** `uuid_for_callback`. */
    method UuidForCallback(callback: Option<Callback>) returns (id: Option<Uuid>)
      requires Valid()
      modifies this
      ensures Valid()
      ensures (State(), id) == Register(old(State()), callback)
      ensures callback.None? ==> id.None? && unchanged(this)
      ensures callback.Some? && callback.value in old(callbackUuidMap) ==>
        id == Some(old(callbackUuidMap)[callback.value]) && unchanged(this)
      ensures callback.Some? && callback.value !in old(callbackUuidMap) ==>
        && id.Some? && id.value !in old(uuidCallbackMap)
        && uuidCallbackMap == old(uuidCallbackMap)[id.value := callback.value]
        && callbackUuidMap == old(callbackUuidMap)[callback.value := id.value]
    {
      RegisterKeepsConsistent(State(), callback);
      if callback.None? {
        return None;
      }
      var cb := callback.value;
      if cb in callbackUuidMap {
        return Some(callbackUuidMap[cb]);
      }
      NextUuidIsFresh(State());
      var cbUuid := UuidAt(clock);
      clock := clock + 1;
      uuidCallbackMap := uuidCallbackMap[cbUuid := cb];
      callbackUuidMap := callbackUuidMap[cb := cbUuid];
      id := Some(cbUuid);
    }

    /** `make_callback`: the call made for `uuid`, or `None` for an unknown one. */
    method MakeCallback<A>(uuid: Uuid, args: seq<A>) returns (call: Option<Invocation<A>>)
      ensures call == Invoke(State(), uuid, args)
    {
      if uuid in uuidCallbackMap {
        var stored := uuidCallbackMap[uuid];
        call := Some(Invocation(stored, Truncate(args, stored.arity)));
      } else {
        call := None;
      }
    }
  }
}
