/**
 * The notifications an ObservableCollection<T> raises: PropertyChanged for
 * "Count" and "Item[]", and CollectionChanged with the change's action, items
 * and index. Both collections of the framework derive from it.
 */
module CollectionEvents {

  /** NotifyCollectionChangedEventArgs. */
  datatype Change<T> =
    | Added(item: T, index: nat)
    | Removed(item: T, index: nat)
    | Replaced(oldItem: T, newItem: T, index: nat)
    | Reset

  datatype Notification<T> =
    | PropertyChanged(propertyName: string)
    | CollectionChanged(change: Change<T>)
    | ItemPropertyChanged(collectionIndex: nat, itemPropertyName: string)   // ObservableCollectionEx only

  /** What ObservableCollection.InsertItem raises once the item is in place. */
  function InsertNotifications<T>(item: T, index: nat): (ns: seq<Notification<T>>)
    ensures |ns| == 3 && ns[|ns| - 1] == CollectionChanged(Added(item, index))
    ensures forall i :: 0 <= i < |ns| - 1 ==> ns[i].PropertyChanged?
    ensures PropertyChanged("Count") in ns && PropertyChanged("Item[]") in ns
  {
    [PropertyChanged("Count"), PropertyChanged("Item[]"), CollectionChanged(Added(item, index))]
  }

  /** What ObservableCollection.RemoveItem raises once the item is gone. */
  function RemoveNotifications<T>(item: T, index: nat): (ns: seq<Notification<T>>)
    ensures |ns| == 3 && ns[|ns| - 1] == CollectionChanged(Removed(item, index))
    ensures forall i :: 0 <= i < |ns| - 1 ==> ns[i].PropertyChanged?
    ensures PropertyChanged("Count") in ns && PropertyChanged("Item[]") in ns
  {
    [PropertyChanged("Count"), PropertyChanged("Item[]"), CollectionChanged(Removed(item, index))]
  }

  /** What ObservableCollection.SetItem raises once the slot holds the new item. */
  function SetNotifications<T>(oldItem: T, newItem: T, index: nat): (ns: seq<Notification<T>>)
    ensures |ns| == 2 && ns[|ns| - 1] == CollectionChanged(Replaced(oldItem, newItem, index))
    ensures ns[0] == PropertyChanged("Item[]")
    ensures PropertyChanged("Count") !in ns
  {
    [PropertyChanged("Item[]"), CollectionChanged(Replaced(oldItem, newItem, index))]
  }

  /** "Count", "Item[]", then a Reset: ClearItems, Refresh and the range operations end so. */
  function ResetNotifications<T>(): (ns: seq<Notification<T>>)
    ensures |ns| == 3 && ns[|ns| - 1] == CollectionChanged(Reset)
    ensures forall i :: 0 <= i < |ns| - 1 ==> ns[i].PropertyChanged?
    ensures PropertyChanged("Count") in ns && PropertyChanged("Item[]") in ns
  {
    [PropertyChanged("Count"), PropertyChanged("Item[]"), CollectionChanged(Reset)]
  }
}
