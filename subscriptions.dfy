/**
 * The subscription record of the event aggregator (the nested class
 * EventAggregator.Handler): a weak reference to the subscriber and the map from
 * declared message type to the IHandle<T>.Handle method, built once when the
 * record is created.
 *
 * Reflection is replaced by what it yields: for each IHandle<T> interface of the
 * subscriber's type, a Capability holding T and the Handle(T) method, or None
 * when GetMethod finds no such method. A weak reference is the subscriber's
 * identity; it resolves exactly when that identity is in the `live` set passed
 * to the operation (the collector's view at the time of the call).
 */
module Subscriptions {
  import opened Wrappers

  /** A runtime System.Type. */
  type TypeId(==, !new)
  /** A MethodInfo for an IHandle<T>.Handle method. */
  type CallbackId(==, !new)
  /** The identity of a heap object (subscribers, messages, handler results). */
  type ObjId = nat

  /** assignable(d, t) stands for d.IsAssignableFrom(t). */
  ghost predicate Preorder(assignable: (TypeId, TypeId) -> bool) {
    && (forall t :: assignable(t, t))
    && (forall a, b, c :: assignable(a, b) && assignable(b, c) ==> assignable(a, c))
  }

  /** What reflection finds for one IHandle<T> interface of the subscriber. */
  datatype Capability = Capability(messageType: TypeId, handleMethod: Option<CallbackId>)

  /** One entry of supportedHandlers. */
  datatype Binding = Binding(messageType: TypeId, callback: CallbackId)

  /** A subscription; `serial` stands for the record's reference identity. */
  datatype Handler = Handler(serial: nat, target: ObjId, supported: seq<Binding>)

  /** A message: an object identified at dispatch by its runtime type. */
  datatype Message = Message(id: ObjId, runtimeType: TypeId)

  ghost predicate DistinctKeys(m: seq<Binding>) {
    forall i, j :: 0 <= i < j < |m| ==> m[i].messageType != m[j].messageType
  }

  /** The position of key t in the dictionary, or -1. */
  function KeyIndex(m: seq<Binding>, t: TypeId): (k: int)
    ensures -1 <= k < |m|
    ensures k == -1 <==> forall i :: 0 <= i < |m| ==> m[i].messageType != t
    ensures 0 <= k ==> m[k].messageType == t
  {
    if m == [] then -1
    else
      var n := |m| - 1;
      if m[n].messageType == t && KeyIndex(m[..n], t) == -1 then n else KeyIndex(m[..n], t)
  }

  /**
   * The dictionary indexer `supportedHandlers[t] = c`: an existing key keeps its
   * position and gets the new value; a new key is added at the end.
   */
  function Put(m: seq<Binding>, t: TypeId, c: CallbackId): (r: seq<Binding>)
    ensures |r| == if KeyIndex(m, t) == -1 then |m| + 1 else |m|
  {
    var k := KeyIndex(m, t);
    if k == -1 then m + [Binding(t, c)] else m[k := Binding(t, c)]
  }

  /** Dictionary semantics of Put: t now maps to c, every other key is untouched. */
  lemma PutLookup(m: seq<Binding>, t: TypeId, c: CallbackId, u: TypeId, d: CallbackId)
    requires DistinctKeys(m)
    ensures DistinctKeys(Put(m, t, c))
    ensures Binding(u, d) in Put(m, t, c) <==> (u == t && d == c) || (u != t && Binding(u, d) in m)
  {
    var k := KeyIndex(m, t);
    var r := Put(m, t, c);
    if k != -1 {
      assert forall i :: 0 <= i < |m| && i != k ==> r[i] == m[i];
      if Binding(u, d) in m && u != t {
        var i :| 0 <= i < |m| && m[i] == Binding(u, d);
        assert r[i] == m[i];
      }
      if Binding(u, d) in r && !(u == t && d == c) {
        var i :| 0 <= i < |r| && r[i] == Binding(u, d);
        assert i != k && r[i] == m[i];
        assert m[i].messageType != m[k].messageType;
      }
      assert r[k] == Binding(t, c);
    } else {
      if Binding(u, d) in r && !(u == t && d == c) {
        var i :| 0 <= i < |r| && r[i] == Binding(u, d);
        assert i < |m| && r[i] == m[i];
      }
    }
  }

  /** The foreach of the Handler constructor over the capabilities, as a fold. */
  function Supported(caps: seq<Capability>): (m: seq<Binding>)
    ensures |m| <= |caps|
  {
    if caps == [] then []
    else
      var n := |caps| - 1;
      var prev := Supported(caps[..n]);
      match caps[n].handleMethod
      case Some(c) => Put(prev, caps[n].messageType, c)
      case None => prev
  }

  /** The method the last capability for t with a resolvable method names. */
  function LastMethod(caps: seq<Capability>, t: TypeId): Option<CallbackId> {
    if caps == [] then None
    else
      var n := |caps| - 1;
      if caps[n].messageType == t && caps[n].handleMethod.Some? then caps[n].handleMethod
      else LastMethod(caps[..n], t)
  }

  /**
   * The capability map has one entry per declared type with a resolvable method,
   * holding the method of its last capability; capabilities whose method is
   * missing are ignored.
   */
  lemma {:induction false} SupportedLookup(caps: seq<Capability>, t: TypeId, c: CallbackId)
    ensures DistinctKeys(Supported(caps))
    ensures Binding(t, c) in Supported(caps) <==> LastMethod(caps, t) == Some(c)
  {
    if caps != [] {
      var n := |caps| - 1;
      SupportedLookup(caps[..n], t, c);
      if caps[n].handleMethod.Some? {
        PutLookup(Supported(caps[..n]), caps[n].messageType, caps[n].handleMethod.value, t, c);
      }
    }
  }

  /** The Handler constructor: builds the capability map with a loop. */
  method NewHandler(serial: nat, subscriber: ObjId, capabilities: seq<Capability>) returns (h: Handler)
    ensures h.serial == serial && h.target == subscriber
    ensures h.supported == Supported(capabilities)
  {
    var supported: seq<Binding> := [];
    for i := 0 to |capabilities|
      invariant supported == Supported(capabilities[..i])
    {
      assert capabilities[..i + 1][..i] == capabilities[..i];
      var cap := capabilities[i];
      if cap.handleMethod.Some? {
        supported := Put(supported, cap.messageType, cap.handleMethod.value);
      }
    }
    assert capabilities[..|capabilities|] == capabilities;
    h := Handler(serial, subscriber, supported);
  }

  /** Handler.Matches: the weak reference resolves to exactly this instance. */
  predicate Matches(h: Handler, instance: ObjId, live: set<ObjId>)
    ensures Matches(h, instance, live) ==> h.target == instance
  {
    h.target in live && h.target == instance
  }

  /** Handler.IsDead: the weak reference no longer resolves, so no instance matches it. */
  predicate IsDead(h: Handler, live: set<ObjId>)
    ensures IsDead(h, live) ==> forall instance :: !Matches(h, instance, live)
  {
    h.target !in live
  }

  /** The entries of a capability map whose type is assignable from t, in map order. */
  function Matching(bs: seq<Binding>, t: TypeId, assignable: (TypeId, TypeId) -> bool): (ms: seq<Binding>)
    ensures |ms| <= |bs|
    ensures forall b :: b in ms <==> b in bs && assignable(b.messageType, t)
  {
    if bs == [] then []
    else
      var n := |bs| - 1;
      assert bs == bs[..n] + [bs[n]];
      Matching(bs[..n], t, assignable) + (if assignable(bs[n].messageType, t) then [bs[n]] else [])
  }

  /**
   * Handler.Handles: some declared type is assignable from t, that is, Handle
   * would invoke at least one method for a message of runtime type t.
   */
  predicate Handles(h: Handler, t: TypeId, assignable: (TypeId, TypeId) -> bool)
    ensures Handles(h, t, assignable) <==> Matching(h.supported, t, assignable) != []
  {
    var ms := Matching(h.supported, t, assignable);
    assert ms != [] ==> ms[0] in h.supported;
    exists i :: 0 <= i < |h.supported| && assignable(h.supported[i].messageType, t)
  }
}
