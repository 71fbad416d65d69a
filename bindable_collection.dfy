/**
 * BindableCollection<T>: an ObservableCollection<T> whose notifications can be
 * switched off with IsNotifying, with AddRange and RemoveRange that make many
 * changes under one Reset. Execute.OnUIThread runs its action at once.
 */
module Bindable {
  import opened Seqs
  import opened CollectionEvents

  class BindableCollection<T(==)> {
    /** The list the base collection holds. */
    var items: seq<T>
    /** IsNotifying */
    var isNotifying: bool
    /** The PropertyChanged and CollectionChanged events raised so far. */
    var raised: seq<Notification<T>>

    constructor ()
      ensures items == [] && isNotifying && raised == []
    {
      items := [];
      isNotifying := true;
      raised := [];
    }

    /** The copying constructor: the elements of `collection`, in order. */
    constructor FromCollection(collection: seq<T>)
      ensures items == collection && isNotifying && raised == []
    {
      items := collection;
      isNotifying := true;
      raised := [];
    }

    /** The OnPropertyChanged override: passes the event on only while notifying. */
    method OnPropertyChanged(propertyName: string)
      modifies this
      ensures items == old(items) && isNotifying == old(isNotifying)
      ensures raised == old(raised) + (if isNotifying then [PropertyChanged(propertyName)] else [])
    {
      if isNotifying {
        raised := raised + [PropertyChanged(propertyName)];
      }
    }

    /** The OnCollectionChanged override: passes the event on only while notifying. */
    method OnCollectionChanged(change: Change<T>)
      modifies this
      ensures items == old(items) && isNotifying == old(isNotifying)
      ensures raised == old(raised) + (if isNotifying then [CollectionChanged(change)] else [])
    {
      if isNotifying {
        raised := raised + [CollectionChanged(change)];
      }
    }

    /** NotifyOfPropertyChange: raises PropertyChanged for the name while notifying. */
    method NotifyOfPropertyChange(propertyName: string)
      modifies this
      ensures items == old(items) && isNotifying == old(isNotifying)
      ensures raised == old(raised) + (if isNotifying then [PropertyChanged(propertyName)] else [])
    {
      if isNotifying {
        OnPropertyChanged(propertyName);
      }
    }

    /** Refresh: "Count", "Item[]" and a Reset, each passing the IsNotifying gate. */
    method Refresh()
      modifies this
      ensures items == old(items) && isNotifying == old(isNotifying)
      ensures raised == old(raised) + (if isNotifying then ResetNotifications() else [])
    {
      OnPropertyChanged("Count");
      OnPropertyChanged("Item[]");
      OnCollectionChanged(Reset);
    }

    /** InsertItemBase: the base insertion, whose notifications go through the gated overrides. */
    method InsertItemBase(index: nat, item: T)
      requires index <= |items|
      modifies this
      ensures items == old(items)[..index] + [item] + old(items)[index..]
      ensures isNotifying == old(isNotifying)
      ensures raised == old(raised) + (if isNotifying then InsertNotifications(item, index) else [])
    {
      items := items[..index] + [item] + items[index..];
      OnPropertyChanged("Count");
      OnPropertyChanged("Item[]");
      OnCollectionChanged(Added(item, index));
    }

    /** SetItemBase: the base replacement of one slot. */
    method SetItemBase(index: nat, item: T)
      requires index < |items|
      modifies this
      ensures items == old(items)[index := item]
      ensures isNotifying == old(isNotifying)
      ensures raised == old(raised) + (if isNotifying then SetNotifications(old(items)[index], item, index) else [])
    {
      var oldItem := items[index];
      items := items[index := item];
      OnPropertyChanged("Item[]");
      OnCollectionChanged(Replaced(oldItem, item, index));
    }

    /** RemoveItemBase: the base removal at an index. */
    method RemoveItemBase(index: nat)
      requires index < |items|
      modifies this
      ensures items == old(items)[..index] + old(items)[index + 1..]
      ensures isNotifying == old(isNotifying)
      ensures raised == old(raised) + (if isNotifying then RemoveNotifications(old(items)[index], index) else [])
    {
      var removed := items[index];
      items := items[..index] + items[index + 1..];
      OnPropertyChanged("Count");
      OnPropertyChanged("Item[]");
      OnCollectionChanged(Removed(removed, index));
    }

    /** ClearItemsBase: the base clear. */
    method ClearItemsBase()
      modifies this
      ensures items == [] && isNotifying == old(isNotifying)
      ensures raised == old(raised) + (if isNotifying then ResetNotifications() else [])
    {
      items := [];
      OnPropertyChanged("Count");
      OnPropertyChanged("Item[]");
      OnCollectionChanged(Reset);
    }

    /** The InsertItem override: the base insertion on the UI thread. */
    method InsertItem(index: nat, item: T)
      requires index <= |items|
      modifies this
      ensures items == old(items)[..index] + [item] + old(items)[index..]
      ensures isNotifying == old(isNotifying)
      ensures raised == old(raised) + (if isNotifying then InsertNotifications(item, index) else [])
    {
      InsertItemBase(index, item);
    }

    /** The SetItem override. */
    method SetItem(index: nat, item: T)
      requires index < |items|
      modifies this
      ensures items == old(items)[index := item]
      ensures isNotifying == old(isNotifying)
      ensures raised == old(raised) + (if isNotifying then SetNotifications(old(items)[index], item, index) else [])
    {
      SetItemBase(index, item);
    }

    /** The RemoveItem override. */
    method RemoveItem(index: nat)
      requires index < |items|
      modifies this
      ensures items == old(items)[..index] + old(items)[index + 1..]
      ensures isNotifying == old(isNotifying)
      ensures raised == old(raised) + (if isNotifying then RemoveNotifications(old(items)[index], index) else [])
    {
      RemoveItemBase(index);
    }

    /** The ClearItems override. */
    method ClearItems()
      modifies this
      ensures items == [] && isNotifying == old(isNotifying)
      ensures raised == old(raised) + (if isNotifying then ResetNotifications() else [])
    {
      ClearItemsBase();
    }

    /**
     * AddRange: the items go to the end in order with notifications off; the
     * earlier IsNotifying is restored, then one "Count", "Item[]", Reset burst
     * passes its gate.
     */
    method AddRange(xs: seq<T>)
      modifies this
      ensures items == old(items) + xs
      ensures isNotifying == old(isNotifying)
      ensures raised == old(raised) + (if isNotifying then ResetNotifications() else [])
    {
      var previousNotificationSetting := isNotifying;
      isNotifying := false;
      var index := |items|;
      for i := 0 to |xs|
        invariant items == old(items) + xs[..i]
        invariant index == |items|
        invariant !isNotifying && raised == old(raised)
      {
        InsertItemBase(index, xs[i]);
        assert old(items) + xs[..i + 1] == old(items) + xs[..i] + [xs[i]];
        index := index + 1;
      }
      assert xs[..|xs|] == xs;
      isNotifying := previousNotificationSetting;
      OnPropertyChanged("Count");
      OnPropertyChanged("Item[]");
      OnCollectionChanged(Reset);
    }

    /**
     * RemoveRange: each element of xs removes its first occurrence, if any, with
     * notifications off; then the same restore and burst as AddRange.
     */
    method RemoveRange(xs: seq<T>)
      modifies this
      ensures items == RemoveEach(old(items), xs)
      ensures isNotifying == old(isNotifying)
      ensures raised == old(raised) + (if isNotifying then ResetNotifications() else [])
    {
      var previousNotificationSetting := isNotifying;
      isNotifying := false;
      for i := 0 to |xs|
        invariant items == RemoveEach(old(items), xs[..i])
        invariant !isNotifying && raised == old(raised)
      {
        assert xs[..i + 1][..i] == xs[..i];
        var index := IndexOf(items, xs[i]);
        if index >= 0 {
          RemoveFirstAt(items, xs[i]);
          RemoveItemBase(index);
        }
      }
      assert xs[..|xs|] == xs;
      isNotifying := previousNotificationSetting;
      OnPropertyChanged("Count");
      OnPropertyChanged("Item[]");
      OnCollectionChanged(Reset);
    }
  }
}
