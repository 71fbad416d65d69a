/**
 * PropertyObserver: a table from property name to callback for one observed
 * source object, held through a weak reference, and the dispatch of
 * PropertyChanged events to the callbacks.
 *
 * A lambda expression is replaced by what GetPropertyName finds in its body.
 * A callback is an opaque ActionId; what it does to the observer (registering or
 * unregistering callbacks of its own) is given by `behaviour`. The
 * PropertyChangedEventManager listener calls are kept as a ghost log.
 */
module PropertyObservation {
  import opened Wrappers
  import opened Seqs
  import opened Subscriptions

  /** An Action<TPropertySource> delegate. */
  type ActionId(==, !new)

  /** The body of a `n => n.Member` lambda, as GetPropertyName inspects it. */
  datatype PropertyExpression =
    | PropertyAccess(name: string)   // a member expression naming a property
    | FieldAccess                    // a member expression naming a field
    | OtherBody                      // anything else: no member expression

  datatype ManagerType = PropertyChangedEventManager | OtherManager

  /** Calls made to PropertyChangedEventManager. */
  datatype ListenerCall = AddListener(source: ObjId, name: string) | RemoveListener(source: ObjId, name: string)

  /** One invocation `handler(propertySource)`. */
  datatype Call = Call(action: ActionId, sender: ObjId)

  /** What a callback does to the observer while it runs. */
  datatype Edit = Register(name: string, action: ActionId) | Unregister(name: string)

  /** The handler map and the listener log together. */
  datatype Table = Table(handlers: map<string, ActionId>, listenerCalls: seq<ListenerCall>)

  const NoPropertyName := "'expression' did not provide a property name."

  /**
   * GetPropertyName: the property's name, null when the body holds no member
   * expression, and a NullReferenceException when the member is not a property.
   */
  function GetPropertyName(e: PropertyExpression): (r: Result<Option<string>>)
    ensures r.Err? <==> e.FieldAccess?
    ensures r.Err? ==> r.error == NullReference
    ensures r.Ok? ==> (r.value.Some? <==> e.PropertyAccess?)
    ensures e.PropertyAccess? ==> r == Ok(Some(e.name))
  {
    match e
    case PropertyAccess(name) => Ok(Some(name))
    case FieldAccess => Err(NullReference)
    case OtherBody => Ok(None)
  }

  /** The argument checks shared by RegisterHandler and UnregisterHandler. */
  function PropertyNameOf(expression: Option<PropertyExpression>): (r: Result<string>)
    ensures expression.None? ==> r == Err(ArgumentNull("expression"))
    ensures r.Ok? <==> expression.Some? && expression.value.PropertyAccess? && expression.value.name != []
    ensures r.Ok? ==> r.value == expression.value.name
    ensures expression == Some(FieldAccess) ==> r == Err(NullReference)
    ensures expression == Some(OtherBody) || expression == Some(PropertyAccess([])) ==> r == Err(Argument(NoPropertyName))
  {
    match expression
    case None => Err(ArgumentNull("expression"))
    case Some(e) =>
      match GetPropertyName(e)
      case Err(err) => Err(err)
      case Ok(name) => if name.None? || name.value == [] then Err(Argument(NoPropertyName)) else Ok(name.value)
  }

  /**
   * RegisterHandler's checks, in the source's order: the expression is checked
   * before the handler, so a bad expression wins over a null handler.
   */
  function CheckRegistration(expression: Option<PropertyExpression>, handler: Option<ActionId>): (r: Result<(string, ActionId)>)
    ensures r.Ok? <==> PropertyNameOf(expression).Ok? && handler.Some?
    ensures PropertyNameOf(expression).Err? ==> r == Err(PropertyNameOf(expression).error)
    ensures PropertyNameOf(expression).Ok? && handler.None? ==> r == Err(ArgumentNull("handler"))
    ensures r.Ok? ==> r.value == (expression.value.name, handler.value)
  {
    match PropertyNameOf(expression)
    case Err(err) => Err(err)
    case Ok(name) => if handler.None? then Err(ArgumentNull("handler")) else Ok((name, handler.value))
  }

  /** Registration while the source is alive: the name now maps to the action. */
  function Registered(t: Table, source: ObjId, name: string, action: ActionId, alive: bool): Table {
    if alive then Table(t.handlers[name := action], t.listenerCalls + [AddListener(source, name)]) else t
  }

  /** Unregistration: only a present name of a live source is removed. */
  function Unregistered(t: Table, source: ObjId, name: string, alive: bool): Table {
    if alive && name in t.handlers then Table(t.handlers - {name}, t.listenerCalls + [RemoveListener(source, name)])
    else t
  }

  function Edited(t: Table, source: ObjId, e: Edit, alive: bool): Table {
    match e
    case Register(name, action) => Registered(t, source, name, action, alive)
    case Unregister(name) => Unregistered(t, source, name, alive)
  }

  /** The edits applied one after another. */
  function EditedAll(t: Table, source: ObjId, es: seq<Edit>, alive: bool): Table {
    if es == [] then t
    else Edited(EditedAll(t, source, es[..|es| - 1], alive), source, es[|es| - 1], alive)
  }

  /** Callbacks only register and unregister under real property names. */
  predicate EditsValid(es: seq<Edit>) {
    forall i :: 0 <= i < |es| ==> es[i].name != []
  }

  /** The invocations made for the names of `order`, one per name, with the snapshot's actions. */
  function Calls(order: seq<string>, snapshot: map<string, ActionId>, sender: ObjId): (cs: seq<Call>)
    requires forall n :: n in order ==> n in snapshot
    ensures |cs| == |order|
  {
    if order == [] then []
    else Calls(order[..|order| - 1], snapshot, sender) + [Call(snapshot[order[|order| - 1]], sender)]
  }

  /** The edits the callbacks make, in invocation order. */
  function EditsAlong(order: seq<string>, snapshot: map<string, ActionId>, behaviour: ActionId -> seq<Edit>): seq<Edit>
    requires forall n :: n in order ==> n in snapshot
  {
    if order == [] then []
    else EditsAlong(order[..|order| - 1], snapshot, behaviour) + behaviour(snapshot[order[|order| - 1]])
  }

  /** Applying a + b is applying a, then b. */
  lemma {:induction false} EditedAllAppend(t: Table, source: ObjId, a: seq<Edit>, b: seq<Edit>, alive: bool)
    ensures EditedAll(t, source, a + b, alive) == EditedAll(EditedAll(t, source, a, alive), source, b, alive)
  {
    if b != [] {
      var n := |b| - 1;
      EditedAllAppend(t, source, a, b[..n], alive);
      assert (a + b)[..|a + b| - 1] == a + b[..n];
    } else {
      assert a + b == a;
    }
  }

  lemma {:induction false} DistinctCard(order: seq<string>)
    requires Distinct(order)
    ensures |set n | n in order| == |order|
  {
    if order != [] {
      var m := |order| - 1;
      assert Distinct(order[..m]);
      DistinctCard(order[..m]);
      assert order == order[..m] + [order[m]];
      assert order[m] !in order[..m];
      assert (set n | n in order) == (set n | n in order[..m]) + {order[m]};
    }
  }

  /**
   * A dispatch over a copy of the map, walking its names once each, makes one
   * call per registered name, and the registered action of every name is called.
   */
  lemma {:induction false} CallsCoverSnapshot(order: seq<string>, snapshot: map<string, ActionId>, sender: ObjId)
    requires Distinct(order) && forall n :: n in order <==> n in snapshot
    ensures |Calls(order, snapshot, sender)| == |snapshot|
    ensures forall n :: n in snapshot ==> Call(snapshot[n], sender) in Calls(order, snapshot, sender)
  {
    DistinctCard(order);
    assert snapshot.Keys == set n | n in order;
    forall n | n in snapshot ensures Call(snapshot[n], sender) in Calls(order, snapshot, sender) {
      var i :| 0 <= i < |order| && order[i] == n;
      CallsAt(order, snapshot, sender, i);
    }
  }

  lemma {:induction false} CallsAt(order: seq<string>, snapshot: map<string, ActionId>, sender: ObjId, i: nat)
    requires forall n :: n in order ==> n in snapshot
    requires i < |order|
    ensures Calls(order, snapshot, sender)[i] == Call(snapshot[order[i]], sender)
  {
    var m := |order| - 1;
    if i < m {
      CallsAt(order[..m], snapshot, sender, i);
    }
  }

  class PropertyObserver {
    /** The target of _propertySourceRef. */
    const source: ObjId
    /** _propertyNameToHandlerMap */
    var handlerMap: map<string, ActionId>
    ghost var listenerCalls: seq<ListenerCall>
    /** Every callback invocation so far. */
    ghost var invoked: seq<Call>

    ghost function State(): Table
      reads this
    {
      Table(handlerMap, listenerCalls)
    }

    constructor (propertySource: ObjId)
      ensures source == propertySource && handlerMap == map[] && listenerCalls == [] && invoked == []
    {
      source := propertySource;
      handlerMap := map[];
      listenerCalls := [];
      invoked := [];
    }

    /** The constructor's null check, then construction. */
    static method Create(propertySource: Option<ObjId>) returns (r: Result<PropertyObserver>)
      ensures propertySource.None? ==> r == Err(ArgumentNull("propertySource"))
      ensures propertySource.Some? ==>
        && r.Ok? && fresh(r.value) && r.value.source == propertySource.value
        && r.value.handlerMap == map[] && r.value.listenerCalls == [] && r.value.invoked == []
    {
      if propertySource.None? {
        return Err(ArgumentNull("propertySource"));
      }
      var o := new PropertyObserver(propertySource.value);
      return Ok(o);
    }

    /**
     * RegisterHandler: after the checks, a live source maps the name to the
     * handler, replacing any earlier one, and adds a listener; a collected
     * source leaves everything as it was.
     */
    method RegisterHandler(expression: Option<PropertyExpression>, handler: Option<ActionId>, live: set<ObjId>)
      returns (r: Result<()>)
      modifies this
      ensures var check := CheckRegistration(expression, handler);
        && (check.Err? ==> r == Err(check.error) && unchanged(this))
        && (check.Ok? ==>
              && r == Ok(()) && invoked == old(invoked)
              && State() == Registered(old(State()), source, check.value.0, check.value.1, source in live))
    {
      var check := CheckRegistration(expression, handler);
      if check.Err? {
        return Err(check.error);
      }
      var (name, action) := check.value;
      if source in live {
        handlerMap := handlerMap[name := action];
        listenerCalls := listenerCalls + [AddListener(source, name)];
      }
      return Ok(());
    }

    /** UnregisterHandler: removes the named entry of a live source, if present. */
    method UnregisterHandler(expression: Option<PropertyExpression>, live: set<ObjId>) returns (r: Result<()>)
      modifies this
      ensures var name := PropertyNameOf(expression);
        && (name.Err? ==> r == Err(name.error) && unchanged(this))
        && (name.Ok? ==>
              && r == Ok(()) && invoked == old(invoked)
              && State() == Unregistered(old(State()), source, name.value, source in live))
    {
      var name := PropertyNameOf(expression);
      if name.Err? {
        return Err(name.error);
      }
      if source in live {
        if name.value in handlerMap {
          handlerMap := handlerMap - {name.value};
          listenerCalls := listenerCalls + [RemoveListener(source, name.value)];
        }
      }
      return Ok(());
    }

    /** The registrations and removals a callback makes through the public methods. */
    method Perform(edits: seq<Edit>, live: set<ObjId>)
      requires EditsValid(edits)
      modifies this
      ensures State() == EditedAll(old(State()), source, edits, source in live)
      ensures invoked == old(invoked)
    {
      for j := 0 to |edits|
        invariant State() == EditedAll(old(State()), source, edits[..j], source in live)
        invariant invoked == old(invoked)
      {
        assert edits[..j + 1][..j] == edits[..j];
        match edits[j]
        case Register(n, a) =>
          var ignored := RegisterHandler(Some(PropertyAccess(n)), Some(a), live);
        case Unregister(n) =>
          var ignored := UnregisterHandler(Some(PropertyAccess(n)), live);
      }
      assert edits[..|edits|] == edits;
    }

    /** Runs one callback: records the call, then applies what the callback does. */
    method Invoke(action: ActionId, sender: ObjId, live: set<ObjId>, behaviour: ActionId -> seq<Edit>)
      requires EditsValid(behaviour(action))
      modifies this
      ensures invoked == old(invoked) + [Call(action, sender)]
      ensures State() == EditedAll(old(State()), source, behaviour(action), source in live)
    {
      invoked := invoked + [Call(action, sender)];
      Perform(behaviour(action), live);
    }

    /**
     * The all-properties branch: every callback of a copy of the map is called
     * once, whatever the callbacks do to the map meanwhile. The order in which
     * the names are visited is the dictionary's and is returned as `order`.
     */
    method InvokeAll(sender: ObjId, live: set<ObjId>, behaviour: ActionId -> seq<Edit>)
      returns (ghost order: seq<string>)
      requires forall a :: EditsValid(behaviour(a))
      modifies this
      ensures Distinct(order) && forall n :: n in order <==> n in old(handlerMap)
      ensures invoked == old(invoked) + Calls(order, old(handlerMap), sender)
      ensures State() == EditedAll(old(State()), source, EditsAlong(order, old(handlerMap), behaviour), source in live)
    {
      var snapshot := handlerMap;
      var remaining := snapshot.Keys;
      order := [];
      while remaining != {}
        invariant remaining <= snapshot.Keys
        invariant Distinct(order)
        invariant forall n :: n in order <==> n in snapshot && n !in remaining
        invariant invoked == old(invoked) + Calls(order, snapshot, sender)
        invariant State() == EditedAll(old(State()), source, EditsAlong(order, snapshot, behaviour), source in live)
        decreases remaining
      {
        var name :| name in remaining;
        ghost var before := State();
        Invoke(snapshot[name], sender, live, behaviour);
        EditedAllAppend(old(State()), source, EditsAlong(order, snapshot, behaviour), behaviour(snapshot[name]), source in live);
        assert (order + [name])[..|order|] == order;
        order := order + [name];
        remaining := remaining - {name};
      }
    }

    /**
     * IWeakEventListener.ReceiveWeakEvent. A null or empty property name calls
     * every registered callback and reports true; a name calls only its own
     * callback and reports whether there is one; another manager's event is
     * ignored and reported false.
     */
    method ReceiveWeakEvent(managerType: ManagerType, sender: ObjId, propertyName: Option<string>,
                            live: set<ObjId>, behaviour: ActionId -> seq<Edit>)
      returns (handled: bool, ghost order: seq<string>)
      requires forall a :: EditsValid(behaviour(a))
      modifies this
      ensures managerType == OtherManager ==> !handled && unchanged(this)
      ensures managerType == PropertyChangedEventManager && (propertyName.None? || propertyName.value == []) ==>
        && handled
        && Distinct(order) && (forall n :: n in order <==> n in old(handlerMap))
        && invoked == old(invoked) + Calls(order, old(handlerMap), sender)
        && State() == EditedAll(old(State()), source, EditsAlong(order, old(handlerMap), behaviour), source in live)
      ensures managerType == PropertyChangedEventManager && propertyName.Some? && propertyName.value != [] ==>
        && (handled <==> propertyName.value in old(handlerMap))
        && (handled ==>
              && invoked == old(invoked) + [Call(old(handlerMap)[propertyName.value], sender)]
              && State() == EditedAll(old(State()), source, behaviour(old(handlerMap)[propertyName.value]), source in live))
        && (!handled ==> unchanged(this))
    {
      order := [];
      if managerType == PropertyChangedEventManager {
        if propertyName.None? || propertyName.value == [] {
          order := InvokeAll(sender, live, behaviour);
          return true, order;
        } else if propertyName.value in handlerMap {
          Invoke(handlerMap[propertyName.value], sender, live, behaviour);
          return true, order;
        }
      }
      return false, order;
    }
  }
}
