/**
 * ObservableCollectionEx<T>: an ObservableCollection<T> that subscribes its
 * ChildPropertyChanged handler to the PropertyChanged event of every item it
 * holds, and reports an item's property change as ItemPropertyChanged with the
 * item's index followed by a Reset.
 *
 * `observed` counts, per item, how many times the handler is subscribed to
 * that item's event: `+=` adds one subscription and `-=` takes one away when
 * there is one.
 */
module ObservableEx {
  import opened Wrappers
  import opened Seqs
  import opened CollectionEvents

  const ItemNotInCollection := "Received property notification from item not in collection"

  /** The subscriptions after the `-=` of the old items of a change. */
  function Detached<T>(observed: multiset<T>, change: Change<T>): multiset<T> {
    match change
    case Removed(item, _) => observed - multiset{item}
    case Replaced(oldItem, _, _) => observed - multiset{oldItem}
    case _ => observed
  }

  /** The subscriptions after the `+=` of the new items of a change. */
  function Attached<T>(observed: multiset<T>, change: Change<T>): multiset<T> {
    match change
    case Added(item, _) => observed + multiset{item}
    case Replaced(_, newItem, _) => observed + multiset{newItem}
    case _ => observed
  }

  class ObservableCollectionEx<T(==)> {
    /** The list the base collection holds. */
    var items: seq<T>
    /** _suppressNotification */
    var suppressNotification: bool
    /** How often ChildPropertyChanged is subscribed to each item. */
    var observed: multiset<T>
    /** CollectionChanged, PropertyChanged and ItemPropertyChanged events raised so far. */
    var raised: seq<Notification<T>>

    /** Every held item is observed once per occurrence, and nothing else is observed. */
    ghost predicate Valid()
      reads this
    {
      observed == multiset(items)
    }

    constructor ()
      ensures items == [] && !suppressNotification && raised == []
      ensures Valid()
    {
      items := [];
      suppressNotification := false;
      observed := multiset{};
      raised := [];
    }

    /** The List and IEnumerable constructors: copy the elements, then ObserveAll. */
    constructor FromSequence(initial: seq<T>)
      ensures items == initial && !suppressNotification && raised == []
      ensures Valid()
    {
      items := initial;
      suppressNotification := false;
      observed := multiset{};
      raised := [];
      new;
      ObserveAll();
    }

    /** ObserveAll: subscribes to every held item. */
    method ObserveAll()
      modifies this
      ensures items == old(items) && suppressNotification == old(suppressNotification) && raised == old(raised)
      ensures observed == old(observed) + multiset(items)
    {
      for i := 0 to |items|
        invariant items == old(items) && suppressNotification == old(suppressNotification) && raised == old(raised)
        invariant observed == old(observed) + multiset(items[..i])
      {
        assert items[..i + 1] == items[..i] + [items[i]];
        observed := observed + multiset{items[i]};
      }
      assert items[..|items|] == items;
    }

    /**
     * The OnCollectionChanged override: unsubscribes from the old items of a
     * Remove or Replace, subscribes to the new items of an Add or Replace, then
     * raises the event. It does not look at _suppressNotification.
     */
    method OnCollectionChanged(change: Change<T>)
      modifies this
      ensures items == old(items) && suppressNotification == old(suppressNotification)
      ensures observed == Attached(Detached(old(observed), change), change)
      ensures raised == old(raised) + [CollectionChanged(change)]
    {
      match change {
        case Removed(item, _) => observed := observed - multiset{item};
        case Replaced(oldItem, _, _) => observed := observed - multiset{oldItem};
        case _ =>
      }
      match change {
        case Added(item, _) => observed := observed + multiset{item};
        case Replaced(_, newItem, _) => observed := observed + multiset{newItem};
        case _ =>
      }
      raised := raised + [CollectionChanged(change)];
    }

    /**
     * The inherited InsertItem. CheckReentrancy throws while a CollectionChanged
     * handler runs and blocks changes; `reentrancyBlocked` is its verdict.
     */
    method InsertItem(index: nat, item: T, reentrancyBlocked: bool) returns (r: Result<()>)
      requires index <= |items|
      modifies this
      ensures reentrancyBlocked ==> r == Err(InvalidOperation) && unchanged(this)
      ensures !reentrancyBlocked ==>
        && r == Ok(())
        && items == old(items)[..index] + [item] + old(items)[index..]
        && observed == old(observed) + multiset{item}
        && raised == old(raised) + InsertNotifications(item, index)
        && suppressNotification == old(suppressNotification)
      ensures old(Valid()) ==> Valid()
    {
      if reentrancyBlocked {
        return Err(InvalidOperation);
      }
      assert items == items[..index] + items[index..];
      items := items[..index] + [item] + items[index..];
      raised := raised + [PropertyChanged("Count"), PropertyChanged("Item[]")];
      OnCollectionChanged(Added(item, index));
      r := Ok(());
    }

    /** Collection.Add: inserts at the end. */
    method Add(item: T, reentrancyBlocked: bool) returns (r: Result<()>)
      modifies this
      ensures reentrancyBlocked ==> r == Err(InvalidOperation) && unchanged(this)
      ensures !reentrancyBlocked ==>
        && r == Ok(())
        && items == old(items) + [item]
        && observed == old(observed) + multiset{item}
        && raised == old(raised) + InsertNotifications(item, |old(items)|)
        && suppressNotification == old(suppressNotification)
      ensures old(Valid()) ==> Valid()
    {
      r := InsertItem(|items|, item, reentrancyBlocked);
      assert old(items)[..|old(items)|] == old(items);
    }

    /** The inherited RemoveItem: the item's subscription goes with it. */
    method RemoveItem(index: nat)
      requires index < |items|
      modifies this
      ensures items == old(items)[..index] + old(items)[index + 1..]
      ensures observed == old(observed) - multiset{old(items)[index]}
      ensures raised == old(raised) + RemoveNotifications(old(items)[index], index)
      ensures suppressNotification == old(suppressNotification)
      ensures old(Valid()) ==> Valid()
    {
      var removed := items[index];
      assert items == items[..index] + [removed] + items[index + 1..];
      items := items[..index] + items[index + 1..];
      raised := raised + [PropertyChanged("Count"), PropertyChanged("Item[]")];
      OnCollectionChanged(Removed(removed, index));
    }

    /** The inherited SetItem: the old item is unsubscribed and the new one subscribed. */
    method SetItem(index: nat, item: T)
      requires index < |items|
      modifies this
      ensures items == old(items)[index := item]
      ensures observed == old(observed) - multiset{old(items)[index]} + multiset{item}
      ensures raised == old(raised) + SetNotifications(old(items)[index], item, index)
      ensures suppressNotification == old(suppressNotification)
      ensures old(Valid()) ==> Valid()
    {
      var oldItem := items[index];
      assert items == items[..index] + [oldItem] + items[index + 1..];
      items := items[index := item];
      assert items == old(items)[..index] + [item] + old(items)[index + 1..];
      raised := raised + [PropertyChanged("Item[]")];
      OnCollectionChanged(Replaced(oldItem, item, index));
    }

    /** The ClearItems override: unsubscribes from every item, then clears. */
    method ClearItems()
      modifies this
      ensures items == []
      ensures observed == old(observed) - multiset(old(items))
      ensures raised == old(raised) + ResetNotifications()
      ensures suppressNotification == old(suppressNotification)
      ensures old(Valid()) ==> Valid() && observed == multiset{}
    {
      DetachAll();
      items := [];
      raised := raised + [PropertyChanged("Count"), PropertyChanged("Item[]")];
      OnCollectionChanged(Reset);
    }

    /** ClearItems' loop: `-=` for every held item. */
    method DetachAll()
      modifies this
      ensures items == old(items) && raised == old(raised) && suppressNotification == old(suppressNotification)
      ensures observed == old(observed) - multiset(items)
    {
      for i := 0 to |items|
        invariant items == old(items) && raised == old(raised) && suppressNotification == old(suppressNotification)
        invariant observed == old(observed) - multiset(items[..i])
      {
        assert items[..i + 1] == items[..i] + [items[i]];
        observed := observed - multiset{items[i]};
      }
      assert items[..|items|] == items;
    }

    /**
     * AddSilent: Add with _suppressNotification set, which is cleared again
     * whether or not Add throws. The Add's CollectionChanged is still raised.
     */
    method AddSilent(item: T, reentrancyBlocked: bool) returns (r: Result<()>)
      modifies this
      ensures !suppressNotification
      ensures reentrancyBlocked ==>
        && r == Err(InvalidOperation)
        && items == old(items) && observed == old(observed) && raised == old(raised)
      ensures !reentrancyBlocked ==>
        && r == Ok(())
        && items == old(items) + [item]
        && observed == old(observed) + multiset{item}
        && raised == old(raised) + InsertNotifications(item, |old(items)|)
      ensures old(Valid()) ==> Valid()
    {
      suppressNotification := true;
      r := Add(item, reentrancyBlocked);
      suppressNotification := false;
    }

    /**
     * OnItemPropertyChanged: while suppressed nothing is raised; otherwise
     * ItemPropertyChanged with the index, then a Reset straight from the base
     * class (no subscription changes).
     */
    method OnItemPropertyChanged(index: nat, propertyName: string)
      modifies this
      ensures items == old(items) && observed == old(observed) && suppressNotification == old(suppressNotification)
      ensures raised == old(raised) +
        (if suppressNotification then [] else [ItemPropertyChanged(index, propertyName), CollectionChanged(Reset)])
    {
      if suppressNotification {
        return;
      }
      raised := raised + [ItemPropertyChanged(index, propertyName), CollectionChanged(Reset)];
    }

    /**
     * ChildPropertyChanged: reports the change at the index of the sender's first
     * occurrence; a sender the collection does not hold is an ArgumentException.
     */
    method ChildPropertyChanged(sender: T, propertyName: string) returns (r: Result<()>)
      modifies this
      ensures sender !in old(items) ==> r == Err(Argument(ItemNotInCollection)) && unchanged(this)
      ensures sender in old(items) ==>
        && r == Ok(())
        && items == old(items) && observed == old(observed) && suppressNotification == old(suppressNotification)
        && raised == old(raised) +
          (if suppressNotification then []
           else [ItemPropertyChanged(IndexOf(items, sender), propertyName), CollectionChanged(Reset)])
    {
      var i := IndexOf(items, sender);
      if i < 0 {
        return Err(Argument(ItemNotInCollection));
      }
      OnItemPropertyChanged(i, propertyName);
      r := Ok(());
    }

    /**
     * OnCollectionChanged as its documentation and AddSilent's intend it:
     * subscriptions are kept up to date, but the event is held back while
     * notifications are suppressed.
     */
    method OnCollectionChangedAsDocumented(change: Change<T>)
      modifies this
      ensures items == old(items) && suppressNotification == old(suppressNotification)
      ensures observed == Attached(Detached(old(observed), change), change)
      ensures raised == old(raised) + (if suppressNotification then [] else [CollectionChanged(change)])
    {
      var before := raised;
      OnCollectionChanged(change);
      if suppressNotification {
        raised := before;
      }
    }

    /**
     * AddSilent with the suppression honoured: the item is added and observed,
     * "Count" and "Item[]" are raised, and no CollectionChanged is.
     */
    method AddSilentAsDocumented(item: T, reentrancyBlocked: bool) returns (r: Result<()>)
      modifies this
      ensures !suppressNotification
      ensures reentrancyBlocked ==>
        && r == Err(InvalidOperation)
        && items == old(items) && observed == old(observed) && raised == old(raised)
      ensures !reentrancyBlocked ==>
        && r == Ok(())
        && items == old(items) + [item]
        && observed == old(observed) + multiset{item}
        && raised == old(raised) + [PropertyChanged("Count"), PropertyChanged("Item[]")]
      ensures forall k :: |old(raised)| <= k < |raised| ==> !raised[k].CollectionChanged?
      ensures old(Valid()) ==> Valid()
    {
      suppressNotification := true;
      if reentrancyBlocked {
        r := Err(InvalidOperation);
      } else {
        items := items + [item];
        raised := raised + [PropertyChanged("Count"), PropertyChanged("Item[]")];
        OnCollectionChangedAsDocumented(Added(item, |items| - 1));
        r := Ok(());
      }
      suppressNotification := false;
    }
  }

  /** On a new collection, AddSilent raises the Add that its documentation says it does not. */
  method AddSilentRaisesCollectionChanged<T(==)>(x: T) returns (log: seq<Notification<T>>)
    ensures log == InsertNotifications(x, 0)
    ensures CollectionChanged(Added(x, 0)) in log
  {
    var c := new ObservableCollectionEx<T>();
    var r := c.AddSilent(x, false);
    log := c.raised;
  }

  /** The corrected AddSilent raises no CollectionChanged on the same input. */
  method AddSilentAsDocumentedIsSilent<T(==)>(x: T) returns (log: seq<Notification<T>>, items: seq<T>)
    ensures items == [x]
    ensures log == [PropertyChanged("Count"), PropertyChanged("Item[]")]
    ensures forall n :: n in log ==> !n.CollectionChanged?
  {
    var c := new ObservableCollectionEx<T>();
    var r := c.AddSilentAsDocumented(x, false);
    log, items := c.raised, c.items;
  }
}
