/**
 * The event aggregator: an ordered registry of subscriptions and a publisher that
 * snapshots the registry, dispatches a message to every matching Handle method of
 * every live subscriber, and prunes the subscriptions it found dead.
 *
 * The marshaller runs the unit of work at once and the locks are atomic
 * sections. Handle methods are user code: `behaviour` says, for a subscriber, a
 * method and a message, what the call returns and which Subscribe/Unsubscribe
 * calls it makes on the aggregator while it runs; those calls are performed on
 * the live registry in the middle of the walk, as in the source.
 */
module EventAggregation {
  import opened Wrappers
  import opened Seqs
  import opened Subscriptions

  /** One invocation of a Handle method: who, which method, which message. */
  datatype Delivery = Delivery(target: ObjId, callback: CallbackId, message: Message)

  /** One call of the HandlerResultProcessing hook with (target, result). */
  datatype Forward = Forward(target: ObjId, result: ObjId)

  /** A call a running handler makes back into the aggregator. */
  datatype Request =
    | SubscribeCall(subscriber: ObjId, capabilities: seq<Capability>)
    | UnsubscribeCall(subscriber: ObjId)

  /** What one Handle call does: its return value (None for null or void) and its calls back. */
  datatype Reaction = Reaction(result: Option<ObjId>, requests: seq<Request>)

  /** The marshaller given to Publish; the only one modelled runs the work at once. */
  datatype Marshaller = Synchronous

  /** The handlers list, and the next reference identity to hand out. */
  datatype Registry = Registry(entries: seq<Handler>, nextSerial: nat)

  /** Every entry is a distinct record with its own identity, handed out before. */
  ghost predicate WellFormed(r: Registry) {
    && Distinct(r.entries)
    && (forall h :: h in r.entries ==> h.serial < r.nextSerial)
    && (forall g, h :: g in r.entries && h in r.entries && g.serial == h.serial ==> g == h)
  }

  /** No two entries match the same live subscriber. */
  ghost predicate UniqueLive(hs: seq<Handler>, live: set<ObjId>) {
    forall g, h :: g in hs && h in hs && g.target == h.target && g.target in live ==> g == h
  }

  /** `handlers.FirstOrDefault(x => x.Matches(instance))`, as an index (-1 for null). */
  function FirstMatch(hs: seq<Handler>, instance: ObjId, live: set<ObjId>): (k: int)
    ensures -1 <= k < |hs|
    ensures k == -1 <==> forall i :: 0 <= i < |hs| ==> !Matches(hs[i], instance, live)
    ensures 0 <= k ==> Matches(hs[k], instance, live)
    ensures 0 <= k ==> forall i :: 0 <= i < k ==> !Matches(hs[i], instance, live)
  {
    if hs == [] then -1
    else
      var n := |hs| - 1;
      var k := FirstMatch(hs[..n], instance, live);
      if k == -1 && Matches(hs[n], instance, live) then n else k
  }

  /** Subscribe on a non-null subscriber. */
  function SubscribeSpec(r: Registry, s: ObjId, caps: seq<Capability>, live: set<ObjId>): Registry {
    if FirstMatch(r.entries, s, live) != -1 then r
    else Registry(r.entries + [Handler(r.nextSerial, s, Supported(caps))], r.nextSerial + 1)
  }

  /** Unsubscribe on a non-null subscriber: `handlers.Remove(found)`. */
  function UnsubscribeSpec(r: Registry, s: ObjId, live: set<ObjId>): Registry {
    var k := FirstMatch(r.entries, s, live);
    if k == -1 then r else Registry(RemoveFirst(r.entries, r.entries[k]), r.nextSerial)
  }

  function ApplyRequest(r: Registry, q: Request, live: set<ObjId>): Registry {
    match q
    case SubscribeCall(s, caps) => SubscribeSpec(r, s, caps, live)
    case UnsubscribeCall(s) => UnsubscribeSpec(r, s, live)
  }

  /** The registry after a sequence of Subscribe/Unsubscribe calls, in order. */
  function ApplyRequests(r: Registry, qs: seq<Request>, live: set<ObjId>): Registry {
    if qs == [] then r else ApplyRequest(ApplyRequests(r, qs[..|qs| - 1], live), qs[|qs| - 1], live)
  }

  /** Dispatch work: deliveries, forwarded results and calls back, each in order. */
  datatype Dispatch = Dispatch(deliveries: seq<Delivery>, forwarded: seq<Forward>, requests: seq<Request>) {
    function Then(next: Dispatch): Dispatch {
      Dispatch(deliveries + next.deliveries, forwarded + next.forwarded, requests + next.requests)
    }
  }

  const NoDispatch := Dispatch([], [], [])

  /** One `pair.Value.Invoke(target, message)`, with the hook called on a non-null result. */
  function Invocation(target: ObjId, b: Binding, msg: Message,
                      behaviour: (ObjId, CallbackId, Message) -> Reaction): Dispatch
  {
    var reaction := behaviour(target, b.callback, msg);
    Dispatch([Delivery(target, b.callback, msg)],
             if reaction.result.Some? then [Forward(target, reaction.result.value)] else [],
             reaction.requests)
  }

  /** Handler.Handle's loop over the capability map of a live subscriber. */
  function HandleSpec(target: ObjId, bs: seq<Binding>, msg: Message, assignable: (TypeId, TypeId) -> bool,
                      behaviour: (ObjId, CallbackId, Message) -> Reaction): Dispatch
  {
    if bs == [] then NoDispatch
    else
      var n := |bs| - 1;
      var prev := HandleSpec(target, bs[..n], msg, assignable, behaviour);
      if assignable(bs[n].messageType, msg.runtimeType) then prev.Then(Invocation(target, bs[n], msg, behaviour))
      else prev
  }

  /** The walk over the snapshot: what was dispatched, and the records found dead. */
  datatype Walk = Walk(dispatch: Dispatch, dead: seq<Handler>)

  function WalkSpec(snap: seq<Handler>, msg: Message, live: set<ObjId>, assignable: (TypeId, TypeId) -> bool,
                    behaviour: (ObjId, CallbackId, Message) -> Reaction): Walk
  {
    if snap == [] then Walk(NoDispatch, [])
    else
      var n := |snap| - 1;
      var prev := WalkSpec(snap[..n], msg, live, assignable, behaviour);
      var h := snap[n];
      if h.target in live then Walk(prev.dispatch.Then(HandleSpec(h.target, h.supported, msg, assignable, behaviour)), prev.dead)
      else Walk(prev.dispatch, prev.dead + [h])
  }

  /** The registry after a Publish of msg that started from r. */
  function AfterPublish(r: Registry, msg: Message, live: set<ObjId>, assignable: (TypeId, TypeId) -> bool,
                        behaviour: (ObjId, CallbackId, Message) -> Reaction): Registry
  {
    var w := WalkSpec(r.entries, msg, live, assignable, behaviour);
    var mid := ApplyRequests(r, w.dispatch.requests, live);
    Registry(RemoveEach(mid.entries, w.dead), mid.nextSerial)
  }

  /** Some live entry declares a type assignable from t. */
  ghost predicate SomeLiveHandler(hs: seq<Handler>, t: TypeId, live: set<ObjId>, assignable: (TypeId, TypeId) -> bool) {
    exists i :: 0 <= i < |hs| && hs[i].target in live && Handles(hs[i], t, assignable)
  }

  // ---------------------------------------------------------------------------
  // Subscribe and Unsubscribe

  /**
   * Subscribe: a subscriber that already matches an entry leaves the registry as
   * it is; any other is appended as exactly one new entry, at the end, holding
   * its capability map; the registry stays well formed and unique per live
   * subscriber.
   */
  lemma SubscribeEffect(r: Registry, s: ObjId, caps: seq<Capability>, live: set<ObjId>)
    requires WellFormed(r)
    ensures var r' := SubscribeSpec(r, s, caps, live);
      && WellFormed(r')
      && (UniqueLive(r.entries, live) ==> UniqueLive(r'.entries, live))
      && ((exists i :: 0 <= i < |r.entries| && Matches(r.entries[i], s, live)) ==> r' == r)
      && (!(exists i :: 0 <= i < |r.entries| && Matches(r.entries[i], s, live)) ==>
            && |r'.entries| == |r.entries| + 1 && r'.entries[..|r.entries|] == r.entries
            && r'.entries[|r.entries|].target == s
            && r'.entries[|r.entries|].supported == Supported(caps)
            && r'.entries[|r.entries|] !in r.entries)
  {
    var r' := SubscribeSpec(r, s, caps, live);
    if FirstMatch(r.entries, s, live) == -1 {
      var h := Handler(r.nextSerial, s, Supported(caps));
      assert r'.entries == r.entries + [h];
      assert h !in r.entries;
      assert Distinct(r'.entries) by {
        forall i, j | 0 <= i < j < |r'.entries| ensures r'.entries[i] != r'.entries[j] {
          if j == |r.entries| { assert r'.entries[i] in r.entries; }
        }
      }
      assert forall g :: g in r.entries ==> !Matches(g, s, live);
    }
  }

  /**
   * Unsubscribe removes exactly the first matching entry and keeps every other
   * entry in its relative order; it does nothing when no entry matches.
   */
  lemma UnsubscribeEffect(r: Registry, s: ObjId, live: set<ObjId>)
    requires WellFormed(r)
    ensures var r' := UnsubscribeSpec(r, s, live);
      var k := FirstMatch(r.entries, s, live);
      && WellFormed(r')
      && (UniqueLive(r.entries, live) ==> UniqueLive(r'.entries, live))
      && (k == -1 ==> r' == r)
      && (k != -1 ==> r'.entries == r.entries[..k] + r.entries[k + 1..] && r'.nextSerial == r.nextSerial)
  {
    var k := FirstMatch(r.entries, s, live);
    if k != -1 {
      var x := r.entries[k];
      RemoveFirstAt(r.entries, x);
      RemoveFirstShrinks(r.entries, x);
      assert forall j :: 0 <= j < k ==> r.entries[j] != x;
      assert x !in r.entries[..k];
    }
  }

  /** Once a live subscriber is unsubscribed, no entry refers to it any more. */
  lemma {:induction false} UnsubscribeIsFinal(r: Registry, s: ObjId, live: set<ObjId>)
    requires WellFormed(r) && UniqueLive(r.entries, live) && s in live
    ensures forall h :: h in UnsubscribeSpec(r, s, live).entries ==> h.target != s
  {
    UnsubscribeEffect(r, s, live);
    var k := FirstMatch(r.entries, s, live);
    var r' := UnsubscribeSpec(r, s, live);
    if k != -1 {
      forall i | 0 <= i < |r'.entries| ensures r'.entries[i].target != s {
        var j := if i < k then i else i + 1;
        assert r'.entries[i] == r.entries[j] && j != k;
        assert r.entries[j] != r.entries[k];
      }
    }
  }

  /** Calls made back into the aggregator keep it well formed and unique per live subscriber. */
  lemma {:induction false} ApplyRequestsInvariant(r: Registry, qs: seq<Request>, live: set<ObjId>)
    requires WellFormed(r)
    ensures WellFormed(ApplyRequests(r, qs, live))
    ensures UniqueLive(r.entries, live) ==> UniqueLive(ApplyRequests(r, qs, live).entries, live)
    ensures ApplyRequests(r, qs, live).nextSerial >= r.nextSerial
  {
    if qs != [] {
      var n := |qs| - 1;
      var prev := ApplyRequests(r, qs[..n], live);
      ApplyRequestsInvariant(r, qs[..n], live);
      match qs[n]
      case SubscribeCall(s, caps) => SubscribeEffect(prev, s, caps, live);
      case UnsubscribeCall(s) => UnsubscribeEffect(prev, s, live);
    }
  }

  /** Performing calls in two batches is performing them all, in order. */
  lemma {:induction false} ApplyRequestsAppend(r: Registry, a: seq<Request>, b: seq<Request>, live: set<ObjId>)
    ensures ApplyRequests(r, a + b, live) == ApplyRequests(ApplyRequests(r, a, live), b, live)
  {
    if b == [] {
      assert a + b == a;
    } else {
      var n := |b| - 1;
      ApplyRequestsAppend(r, a, b[..n], live);
      assert (a + b)[..|a + b| - 1] == a + b[..n];
    }
  }

  // ---------------------------------------------------------------------------
  // Publish

  lemma {:induction false} HandleSpecDeliveries(target: ObjId, bs: seq<Binding>, msg: Message,
                                                assignable: (TypeId, TypeId) -> bool,
                                                behaviour: (ObjId, CallbackId, Message) -> Reaction, d: Delivery)
    ensures d in HandleSpec(target, bs, msg, assignable, behaviour).deliveries <==>
      && d.target == target && d.message == msg
      && exists j :: 0 <= j < |bs| && bs[j].callback == d.callback && assignable(bs[j].messageType, msg.runtimeType)
  {
    if bs != [] {
      var n := |bs| - 1;
      HandleSpecDeliveries(target, bs[..n], msg, assignable, behaviour, d);
      if exists j :: 0 <= j < |bs| && bs[j].callback == d.callback && assignable(bs[j].messageType, msg.runtimeType) {
        var j :| 0 <= j < |bs| && bs[j].callback == d.callback && assignable(bs[j].messageType, msg.runtimeType);
        if j < n { assert bs[..n][j] == bs[j]; }
      }
      if exists j :: 0 <= j < n && bs[..n][j].callback == d.callback && assignable(bs[..n][j].messageType, msg.runtimeType) {
        var j :| 0 <= j < n && bs[..n][j].callback == d.callback && assignable(bs[..n][j].messageType, msg.runtimeType);
        assert bs[j] == bs[..n][j];
      }
    }
  }

  /** Entry h of the snapshot, live, declares a type assignable from t with method c. */
  ghost predicate Eligible(h: Handler, c: CallbackId, t: TypeId, live: set<ObjId>, assignable: (TypeId, TypeId) -> bool) {
    && h.target in live
    && exists j :: 0 <= j < |h.supported| && h.supported[j].callback == c && assignable(h.supported[j].messageType, t)
  }

  /**
   * Who is called: a Handle method is invoked with the message exactly when its
   * subscriber is live, is in the snapshot, and declares a type assignable from
   * the message's runtime type. In particular a dead entry gets no invocation.
   */
  lemma {:induction false} WalkDeliveries(snap: seq<Handler>, msg: Message, live: set<ObjId>,
                                          assignable: (TypeId, TypeId) -> bool,
                                          behaviour: (ObjId, CallbackId, Message) -> Reaction, d: Delivery)
    ensures d in WalkSpec(snap, msg, live, assignable, behaviour).dispatch.deliveries <==>
      && d.message == msg
      && exists i :: 0 <= i < |snap| && snap[i].target == d.target && Eligible(snap[i], d.callback, msg.runtimeType, live, assignable)
  {
    if snap != [] {
      var n := |snap| - 1;
      var h := snap[n];
      WalkDeliveries(snap[..n], msg, live, assignable, behaviour, d);
      HandleSpecDeliveries(h.target, h.supported, msg, assignable, behaviour, d);
      if exists i :: 0 <= i < |snap| && snap[i].target == d.target && Eligible(snap[i], d.callback, msg.runtimeType, live, assignable) {
        var i :| 0 <= i < |snap| && snap[i].target == d.target && Eligible(snap[i], d.callback, msg.runtimeType, live, assignable);
        if i < n { assert snap[..n][i] == snap[i]; }
      }
      if exists i :: 0 <= i < n && snap[..n][i].target == d.target && Eligible(snap[..n][i], d.callback, msg.runtimeType, live, assignable) {
        var i :| 0 <= i < n && snap[..n][i].target == d.target && Eligible(snap[..n][i], d.callback, msg.runtimeType, live, assignable);
        assert snap[i] == snap[..n][i];
      }
    }
  }

  /** One more entry of the snapshot walked. */
  lemma WalkStep(snap: seq<Handler>, i: nat, msg: Message, live: set<ObjId>,
                 assignable: (TypeId, TypeId) -> bool,
                 behaviour: (ObjId, CallbackId, Message) -> Reaction)
    requires i < |snap|
    ensures var prev := WalkSpec(snap[..i], msg, live, assignable, behaviour);
      var h := snap[i];
      WalkSpec(snap[..i + 1], msg, live, assignable, behaviour) ==
        if h.target in live then Walk(prev.dispatch.Then(HandleSpec(h.target, h.supported, msg, assignable, behaviour)), prev.dead)
        else Walk(prev.dispatch, prev.dead + [h])
  {
    assert snap[..i + 1][..i] == snap[..i];
  }

  /** The records found dead are exactly the snapshot's entries whose subscriber is gone. */
  lemma {:induction false} WalkDead(snap: seq<Handler>, msg: Message, live: set<ObjId>,
                                    assignable: (TypeId, TypeId) -> bool,
                                    behaviour: (ObjId, CallbackId, Message) -> Reaction, h: Handler)
    ensures h in WalkSpec(snap, msg, live, assignable, behaviour).dead <==> h in snap && h.target !in live
  {
    if snap != [] {
      var n := |snap| - 1;
      WalkDead(snap[..n], msg, live, assignable, behaviour, h);
      assert snap == snap[..n] + [snap[n]];
    }
  }

  /** The invocations Handle makes on a live target: one per matching entry, in map order. */
  function DeliveriesFor(target: ObjId, ms: seq<Binding>, msg: Message): (ds: seq<Delivery>)
    ensures |ds| == |ms|
  {
    seq(|ms|, j requires 0 <= j < |ms| => Delivery(target, ms[j].callback, msg))
  }

  /** What the invoked methods return, in invocation order (None for null or void). */
  function ResultsOf(target: ObjId, ms: seq<Binding>, msg: Message,
                     behaviour: (ObjId, CallbackId, Message) -> Reaction): seq<Option<ObjId>>
  {
    seq(|ms|, j requires 0 <= j < |ms| => behaviour(target, ms[j].callback, msg).result)
  }

  /** The HandlerResultProcessing calls for the results rs: one per non-null result, in order. */
  function ForwardsOf(target: ObjId, rs: seq<Option<ObjId>>): (fs: seq<Forward>)
    ensures |fs| <= |rs|
    ensures forall f :: f in fs <==> f.target == target && Some(f.result) in rs
  {
    if rs == [] then []
    else
      var n := |rs| - 1;
      assert rs == rs[..n] + [rs[n]];
      ForwardsOf(target, rs[..n]) + (if rs[n].Some? then [Forward(target, rs[n].value)] else [])
  }

  /**
   * Handle on a live target invokes each matching entry of its map exactly once,
   * in map order, and passes each non-null result, and only those, to the hook
   * once, in the same order.
   */
  lemma {:induction false} HandleSpecExactly(target: ObjId, bs: seq<Binding>, msg: Message,
                                             assignable: (TypeId, TypeId) -> bool,
                                             behaviour: (ObjId, CallbackId, Message) -> Reaction)
    ensures var d := HandleSpec(target, bs, msg, assignable, behaviour);
      var ms := Matching(bs, msg.runtimeType, assignable);
      && d.deliveries == DeliveriesFor(target, ms, msg)
      && d.forwarded == ForwardsOf(target, ResultsOf(target, ms, msg, behaviour))
  {
    if bs != [] {
      var n := |bs| - 1;
      HandleSpecExactly(target, bs[..n], msg, assignable, behaviour);
      var ms0 := Matching(bs[..n], msg.runtimeType, assignable);
      if assignable(bs[n].messageType, msg.runtimeType) {
        var ms := ms0 + [bs[n]];
        assert DeliveriesFor(target, ms, msg) == DeliveriesFor(target, ms0, msg) + [Delivery(target, bs[n].callback, msg)];
        var rs := ResultsOf(target, ms, msg, behaviour);
        assert rs[..|ms0|] == ResultsOf(target, ms0, msg, behaviour);
        assert rs[|ms0|] == behaviour(target, bs[n].callback, msg).result;
      } else {
        assert ms0 + [] == ms0;
      }
    }
  }

  /** What Handle delivers to one snapshot entry: nothing for a dead one. */
  function EntryDeliveries(h: Handler, msg: Message, live: set<ObjId>, assignable: (TypeId, TypeId) -> bool): seq<Delivery> {
    if h.target in live then DeliveriesFor(h.target, Matching(h.supported, msg.runtimeType, assignable), msg) else []
  }

  /** The hook calls Handle makes for one snapshot entry: none for a dead one. */
  function EntryForwards(h: Handler, msg: Message, live: set<ObjId>, assignable: (TypeId, TypeId) -> bool,
                         behaviour: (ObjId, CallbackId, Message) -> Reaction): seq<Forward> {
    if h.target in live
    then ForwardsOf(h.target, ResultsOf(h.target, Matching(h.supported, msg.runtimeType, assignable), msg, behaviour))
    else []
  }

  /**
   * The whole walk: the invocations are those of each live snapshot entry, each
   * matching method once, entry after entry in snapshot order; the same holds of
   * the non-null results passed to the hook.
   */
  lemma {:induction false} WalkExactly(snap: seq<Handler>, msg: Message, live: set<ObjId>,
                                       assignable: (TypeId, TypeId) -> bool,
                                       behaviour: (ObjId, CallbackId, Message) -> Reaction)
    ensures var w := WalkSpec(snap, msg, live, assignable, behaviour);
      && w.dispatch.deliveries == Concat(seq(|snap|, i requires 0 <= i < |snap| => EntryDeliveries(snap[i], msg, live, assignable)))
      && w.dispatch.forwarded == Concat(seq(|snap|, i requires 0 <= i < |snap| => EntryForwards(snap[i], msg, live, assignable, behaviour)))
  {
    if snap != [] {
      var n := |snap| - 1;
      var h := snap[n];
      WalkExactly(snap[..n], msg, live, assignable, behaviour);
      HandleSpecExactly(h.target, h.supported, msg, assignable, behaviour);
      var ds := seq(|snap|, i requires 0 <= i < |snap| => EntryDeliveries(snap[i], msg, live, assignable));
      var fs := seq(|snap|, i requires 0 <= i < |snap| => EntryForwards(snap[i], msg, live, assignable, behaviour));
      assert ds[..n] == seq(n, i requires 0 <= i < n => EntryDeliveries(snap[..n][i], msg, live, assignable));
      assert fs[..n] == seq(n, i requires 0 <= i < n => EntryForwards(snap[..n][i], msg, live, assignable, behaviour));
      if h.target !in live {
        assert ds[n] == [] && fs[n] == [];
      }
    }
  }

  /**
   * The walk goes through the snapshot in list order: walking a + b is walking a,
   * then walking b.
   */
  lemma {:induction false} WalkInOrder(a: seq<Handler>, b: seq<Handler>, msg: Message, live: set<ObjId>,
                                       assignable: (TypeId, TypeId) -> bool,
                                       behaviour: (ObjId, CallbackId, Message) -> Reaction)
    ensures var wa := WalkSpec(a, msg, live, assignable, behaviour);
      var wb := WalkSpec(b, msg, live, assignable, behaviour);
      WalkSpec(a + b, msg, live, assignable, behaviour) == Walk(wa.dispatch.Then(wb.dispatch), wa.dead + wb.dead)
  {
    if b == [] {
      assert a + b == a;
      var wa := WalkSpec(a, msg, live, assignable, behaviour);
      assert wa.dispatch.Then(NoDispatch) == wa.dispatch;
      assert wa.dead + [] == wa.dead;
    } else {
      var n := |b| - 1;
      WalkInOrder(a, b[..n], msg, live, assignable, behaviour);
      assert (a + b)[..|a + b| - 1] == a + b[..n];
      assert (a + b)[|a + b| - 1] == b[n];
    }
  }

  /**
   * HandlerExistsFor(t) holds exactly when publishing a message of runtime type t
   * would invoke at least one Handle method.
   */
  lemma HandlerExistsIffDelivered(hs: seq<Handler>, msg: Message, live: set<ObjId>,
                                  assignable: (TypeId, TypeId) -> bool,
                                  behaviour: (ObjId, CallbackId, Message) -> Reaction)
    ensures SomeLiveHandler(hs, msg.runtimeType, live, assignable) <==>
            WalkSpec(hs, msg, live, assignable, behaviour).dispatch.deliveries != []
  {
    var ds := WalkSpec(hs, msg, live, assignable, behaviour).dispatch.deliveries;
    if SomeLiveHandler(hs, msg.runtimeType, live, assignable) {
      var i :| 0 <= i < |hs| && hs[i].target in live && Handles(hs[i], msg.runtimeType, assignable);
      var j :| 0 <= j < |hs[i].supported| && assignable(hs[i].supported[j].messageType, msg.runtimeType);
      var d := Delivery(hs[i].target, hs[i].supported[j].callback, msg);
      WalkDeliveries(hs, msg, live, assignable, behaviour, d);
      assert d in ds;
    }
    if ds != [] {
      WalkDeliveries(hs, msg, live, assignable, behaviour, ds[0]);
      var i :| 0 <= i < |hs| && hs[i].target == ds[0].target && Eligible(hs[i], ds[0].callback, msg.runtimeType, live, assignable);
      assert Handles(hs[i], msg.runtimeType, assignable);
    }
  }

  /** A handler for a type also handles every type assignable to it (a subtype). */
  lemma HandlerExistsForSubtype(hs: seq<Handler>, t: TypeId, u: TypeId, live: set<ObjId>,
                                assignable: (TypeId, TypeId) -> bool)
    requires Preorder(assignable)
    requires SomeLiveHandler(hs, t, live, assignable) && assignable(t, u)
    ensures SomeLiveHandler(hs, u, live, assignable)
  {
    var i :| 0 <= i < |hs| && hs[i].target in live && Handles(hs[i], t, assignable);
    var j :| 0 <= j < |hs[i].supported| && assignable(hs[i].supported[j].messageType, t);
    assert assignable(hs[i].supported[j].messageType, u);
  }

  /**
   * After Publish: exactly the entries found dead are removed from the registry
   * as the walk left it, the others keep their order, and a snapshot entry stays
   * exactly when its subscriber is live.
   */
  lemma PublishPrunesExactlyTheDead(r: Registry, msg: Message, live: set<ObjId>,
                                    assignable: (TypeId, TypeId) -> bool,
                                    behaviour: (ObjId, CallbackId, Message) -> Reaction)
    requires WellFormed(r)
    ensures var w := WalkSpec(r.entries, msg, live, assignable, behaviour);
      var mid := ApplyRequests(r, w.dispatch.requests, live);
      var r' := AfterPublish(r, msg, live, assignable, behaviour);
      && WellFormed(r')
      && (UniqueLive(r.entries, live) ==> UniqueLive(r'.entries, live))
      && r'.entries == Without(mid.entries, w.dead)
      && forall h :: h in r'.entries <==> h in mid.entries && (h in r.entries ==> h.target in live)
  {
    var w := WalkSpec(r.entries, msg, live, assignable, behaviour);
    var mid := ApplyRequests(r, w.dispatch.requests, live);
    var r' := AfterPublish(r, msg, live, assignable, behaviour);
    ApplyRequestsInvariant(r, w.dispatch.requests, live);
    RemoveEachDistinct(mid.entries, w.dead);
    RemoveEachShrinks(mid.entries, w.dead);
    forall h ensures h in r'.entries <==> h in mid.entries && (h in r.entries ==> h.target in live) {
      WithoutMembers(mid.entries, w.dead, h);
      WalkDead(r.entries, msg, live, assignable, behaviour, h);
    }
  }

  lemma {:induction false} HandleSpecRecipients(target: ObjId, bs: seq<Binding>, msg: Message,
                                                assignable: (TypeId, TypeId) -> bool,
                                                b1: (ObjId, CallbackId, Message) -> Reaction,
                                                b2: (ObjId, CallbackId, Message) -> Reaction)
    ensures HandleSpec(target, bs, msg, assignable, b1).deliveries == HandleSpec(target, bs, msg, assignable, b2).deliveries
  {
    if bs != [] {
      HandleSpecRecipients(target, bs[..|bs| - 1], msg, assignable, b1, b2);
    }
  }

  /**
   * Publish notifies from the snapshot: which Handle methods are invoked, and in
   * which order, does not depend on what the handlers do, so Subscribe and
   * Unsubscribe calls they make during the walk change nobody's notification.
   */
  lemma {:induction false} SnapshotFixesRecipients(snap: seq<Handler>, msg: Message, live: set<ObjId>,
                                                   assignable: (TypeId, TypeId) -> bool,
                                                   b1: (ObjId, CallbackId, Message) -> Reaction,
                                                   b2: (ObjId, CallbackId, Message) -> Reaction)
    ensures WalkSpec(snap, msg, live, assignable, b1).dispatch.deliveries
         == WalkSpec(snap, msg, live, assignable, b2).dispatch.deliveries
    ensures WalkSpec(snap, msg, live, assignable, b1).dead == WalkSpec(snap, msg, live, assignable, b2).dead
  {
    if snap != [] {
      var n := |snap| - 1;
      SnapshotFixesRecipients(snap[..n], msg, live, assignable, b1, b2);
      HandleSpecRecipients(snap[n].target, snap[n].supported, msg, assignable, b1, b2);
    }
  }

  /** A subscriber no entry refers to gets nothing from a publish. */
  lemma NotSubscribedNotDelivered(hs: seq<Handler>, s: ObjId, msg: Message, live: set<ObjId>,
                                  assignable: (TypeId, TypeId) -> bool,
                                  behaviour: (ObjId, CallbackId, Message) -> Reaction, c: CallbackId)
    requires forall h :: h in hs ==> h.target != s
    ensures Delivery(s, c, msg) !in WalkSpec(hs, msg, live, assignable, behaviour).dispatch.deliveries
  {
    WalkDeliveries(hs, msg, live, assignable, behaviour, Delivery(s, c, msg));
  }

  // ---------------------------------------------------------------------------
  // The aggregator object

  class EventAggregator {
    /** assignable(d, t) is d.IsAssignableFrom(t). */
    const assignable: (TypeId, TypeId) -> bool
    /** The handlers list. */
    var handlers: seq<Handler>
    /** The identity the next Handler record gets. */
    var nextSerial: nat
    /** Every Handle invocation so far, in order. */
    ghost var delivered: seq<Delivery>
    /** Every call of HandlerResultProcessing so far, in order. */
    ghost var processed: seq<Forward>

    ghost function State(): Registry
      reads this
    {
      Registry(handlers, nextSerial)
    }

    ghost predicate Valid()
      reads this
    {
      WellFormed(State())
    }

    constructor (assignable: (TypeId, TypeId) -> bool)
      ensures Valid() && this.assignable == assignable
      ensures handlers == [] && delivered == [] && processed == []
    {
      this.assignable := assignable;
      handlers := [];
      nextSerial := 0;
      delivered := [];
      processed := [];
    }

    method Subscribe(subscriber: Option<ObjId>, capabilities: seq<Capability>, live: set<ObjId>)
      returns (r: Result<()>)
      requires Valid()
      modifies this
      ensures Valid()
      ensures subscriber.None? ==> r == Err(ArgumentNull("subscriber")) && State() == old(State())
      ensures subscriber.Some? ==> r == Ok(()) && State() == SubscribeSpec(old(State()), subscriber.value, capabilities, live)
      ensures UniqueLive(old(handlers), live) ==> UniqueLive(handlers, live)
      ensures delivered == old(delivered) && processed == old(processed)
    {
      if subscriber.None? {
        return Err(ArgumentNull("subscriber"));
      }
      var s := subscriber.value;
      if FirstMatch(handlers, s, live) != -1 {
        return Ok(());
      }
      ghost var before := State();
      var h := NewHandler(nextSerial, s, capabilities);
      handlers := handlers + [h];
      nextSerial := nextSerial + 1;
      SubscribeEffect(before, s, capabilities, live);
      assert State() == SubscribeSpec(before, s, capabilities, live);
      return Ok(());
    }

    method Unsubscribe(subscriber: Option<ObjId>, live: set<ObjId>) returns (r: Result<()>)
      requires Valid()
      modifies this
      ensures Valid()
      ensures subscriber.None? ==> r == Err(ArgumentNull("subscriber")) && State() == old(State())
      ensures subscriber.Some? ==> r == Ok(()) && State() == UnsubscribeSpec(old(State()), subscriber.value, live)
      ensures UniqueLive(old(handlers), live) ==> UniqueLive(handlers, live)
      ensures delivered == old(delivered) && processed == old(processed)
    {
      if subscriber.None? {
        return Err(ArgumentNull("subscriber"));
      }
      var s := subscriber.value;
      UnsubscribeEffect(State(), s, live);
      var k := FirstMatch(handlers, s, live);
      if k != -1 {
        handlers := RemoveFirst(handlers, handlers[k]);
      }
      return Ok(());
    }

    /** Reads the list and changes nothing; dead entries are skipped, not pruned. */
    method HandlerExistsFor(messageType: TypeId, live: set<ObjId>) returns (r: bool)
      ensures r == SomeLiveHandler(handlers, messageType, live, assignable)
    {
      r := false;
      var i := 0;
      while i < |handlers| && !r
        invariant 0 <= i <= |handlers|
        invariant r <==> exists k :: 0 <= k < i && handlers[k].target in live && Handles(handlers[k], messageType, assignable)
      {
        r := Handles(handlers[i], messageType, assignable) && !IsDead(handlers[i], live);
        i := i + 1;
      }
    }

    /** The calls a running handler makes back into the aggregator, in order. */
    method Perform(requests: seq<Request>, live: set<ObjId>)
      requires Valid()
      modifies this
      ensures Valid()
      ensures State() == ApplyRequests(old(State()), requests, live)
      ensures delivered == old(delivered) && processed == old(processed)
    {
      for k := 0 to |requests|
        invariant Valid()
        invariant State() == ApplyRequests(old(State()), requests[..k], live)
        invariant delivered == old(delivered) && processed == old(processed)
      {
        assert requests[..k + 1][..k] == requests[..k];
        var ignored: Result<()>;
        match requests[k]
        case SubscribeCall(s, caps) => ignored := Subscribe(Some(s), caps, live);
        case UnsubscribeCall(s) => ignored := Unsubscribe(Some(s), live);
      }
      assert requests[..|requests|] == requests;
    }

    /** Handler.Handle: false for a dead subscriber; otherwise calls every matching method. */
    method Handle(h: Handler, message: Message, live: set<ObjId>,
                  behaviour: (ObjId, CallbackId, Message) -> Reaction) returns (alive: bool)
      requires Valid()
      modifies this
      ensures Valid()
      ensures alive == (h.target in live)
      ensures var d := if alive then HandleSpec(h.target, h.supported, message, assignable, behaviour) else NoDispatch;
        && delivered == old(delivered) + d.deliveries
        && processed == old(processed) + d.forwarded
        && State() == ApplyRequests(old(State()), d.requests, live)
    {
      if IsDead(h, live) {
        return false;
      }
      var bs := h.supported;
      for i := 0 to |bs|
        invariant Valid()
        invariant var d := HandleSpec(h.target, bs[..i], message, assignable, behaviour);
          && delivered == old(delivered) + d.deliveries
          && processed == old(processed) + d.forwarded
          && State() == ApplyRequests(old(State()), d.requests, live)
      {
        assert bs[..i + 1][..i] == bs[..i];
        var pair := bs[i];
        if assignable(pair.messageType, message.runtimeType) {
          ghost var before := HandleSpec(h.target, bs[..i], message, assignable, behaviour).requests;
          var reaction := behaviour(h.target, pair.callback, message);
          delivered := delivered + [Delivery(h.target, pair.callback, message)];
          Perform(reaction.requests, live);
          ApplyRequestsAppend(old(State()), before, reaction.requests, live);
          if reaction.result.Some? {
            processed := processed + [Forward(h.target, reaction.result.value)];
          }
        }
      }
      assert bs[..|bs|] == bs;
      return true;
    }

    /**
     * Publish: fails on a null message, then on a null marshaller, before taking
     * the snapshot; otherwise walks the snapshot in order, delivering to live
     * entries, then prunes the entries found dead.
     */
    method Publish(message: Option<Message>, marshal: Option<Marshaller>, live: set<ObjId>,
                   behaviour: (ObjId, CallbackId, Message) -> Reaction) returns (r: Result<()>)
      requires Valid()
      modifies this
      ensures Valid()
      ensures message.None? ==> r == Err(ArgumentNull("message")) && unchanged(this)
      ensures message.Some? && marshal.None? ==> r == Err(ArgumentNull("marshal")) && unchanged(this)
      ensures message.Some? && marshal.Some? ==>
        var w := WalkSpec(old(handlers), message.value, live, assignable, behaviour);
        && r == Ok(())
        && delivered == old(delivered) + w.dispatch.deliveries
        && processed == old(processed) + w.dispatch.forwarded
        && State() == AfterPublish(old(State()), message.value, live, assignable, behaviour)
    {
      if message.None? {
        return Err(ArgumentNull("message"));
      }
      if marshal.None? {
        return Err(ArgumentNull("marshal"));
      }
      var toNotify := handlers;
      // the unit of work handed to the marshaller, run at once
      var dead := Notify(toNotify, message.value, live, behaviour);
      if |dead| > 0 {
        RemoveDead(dead);
      }
      PublishPrunesExactlyTheDead(old(State()), message.value, live, assignable, behaviour);
      return Ok(());
    }

    /** The walk of the snapshot inside Publish's unit of work. */
    method Notify(toNotify: seq<Handler>, msg: Message, live: set<ObjId>,
                  behaviour: (ObjId, CallbackId, Message) -> Reaction) returns (dead: seq<Handler>)
      requires Valid()
      modifies this
      ensures Valid()
      ensures var w := WalkSpec(toNotify, msg, live, assignable, behaviour);
        && dead == w.dead
        && delivered == old(delivered) + w.dispatch.deliveries
        && processed == old(processed) + w.dispatch.forwarded
        && State() == ApplyRequests(old(State()), w.dispatch.requests, live)
    {
      dead := [];
      for i := 0 to |toNotify|
        invariant Valid()
        invariant var w := WalkSpec(toNotify[..i], msg, live, assignable, behaviour);
          && dead == w.dead
          && delivered == old(delivered) + w.dispatch.deliveries
          && processed == old(processed) + w.dispatch.forwarded
          && State() == ApplyRequests(old(State()), w.dispatch.requests, live)
      {
        ghost var prev := WalkSpec(toNotify[..i], msg, live, assignable, behaviour).dispatch;
        WalkStep(toNotify, i, msg, live, assignable, behaviour);
        var h := toNotify[i];
        var alive := Handle(h, msg, live, behaviour);
        if alive {
          ghost var d := HandleSpec(h.target, h.supported, msg, assignable, behaviour);
          ApplyRequestsAppend(old(State()), prev.requests, d.requests, live);
          assert old(delivered) + prev.deliveries + d.deliveries == old(delivered) + (prev.deliveries + d.deliveries);
          assert old(processed) + prev.forwarded + d.forwarded == old(processed) + (prev.forwarded + d.forwarded);
        } else {
          assert delivered == old(delivered) + prev.deliveries + [];
          assert processed == old(processed) + prev.forwarded + [];
          assert prev.requests + [] == prev.requests;
          dead := dead + [h];
        }
      }
      assert toNotify[..|toNotify|] == toNotify;
    }

    /** `dead.Apply(x => handlers.Remove(x))`. */
    method RemoveDead(dead: seq<Handler>)
      modifies this
      ensures handlers == RemoveEach(old(handlers), dead)
      ensures nextSerial == old(nextSerial) && delivered == old(delivered) && processed == old(processed)
    {
      for k := 0 to |dead|
        invariant handlers == RemoveEach(old(handlers), dead[..k])
        invariant nextSerial == old(nextSerial) && delivered == old(delivered) && processed == old(processed)
      {
        assert dead[..k + 1][..k] == dead[..k];
        handlers := RemoveFirst(handlers, dead[k]);
      }
      assert dead[..|dead|] == dead;
    }
  }
}
