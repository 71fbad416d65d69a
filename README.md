# CupcakeMvvM core, modelled in Dafny

This project models the core of CupcakeMvvM, a small WPF MVVM framework:

- **EventAggregator**: a process-wide publish/subscribe hub with weakly held subscribers.
  - Subscribe and Unsubscribe keep an ordered list of handlers.
  - Publish snapshots that list and calls, in snapshot order, every matching `IHandle<T>` method of every live subscriber.
  - Publish then prunes the subscribers it found dead.
  - HandlerExistsFor asks whether any live subscriber handles a type.
- **ViewLocator and AssemblySource**: map a view-model type name to its view type.
  - The locator strips design-time prefixes and generic suffixes.
  - TransformName produces the candidate names.
  - FindTypeByNames looks the candidates up in the type-name cache that Initialize fills.
- **PropertyObserver**: routes PropertyChanged events of a weakly held source to callbacks registered per property name.
- **BindableCollection**: an observable collection whose notifications can be switched off (IsNotifying). Its AddRange and RemoveRange end in one Reset.
- **ObservableCollectionEx**: an observable collection that subscribes to its items' PropertyChanged and re-raises item changes. It also has an AddSilent.
- **DelegateCommand**: an ICommand built from delegates. While it is executing, ICommand.CanExecute reports false; ICommand.Execute itself does not check.

Modules, one per source file:

- `Wrappers`: Option, Result and the exceptions the core throws.
- `Seqs`: the list operations it relies on: IndexOf, Remove, and removal of many elements.
- `Subscriptions`: the nested Handler of the aggregator.
- `EventAggregation`: EventAggregator.cs.
- `AssemblySources`: AssemblySource.cs.
- `ViewLocation`: ViewLocator.cs.
- `PropertyObservation`: PropertyObserver.cs.
- `CollectionEvents`: the notifications of the ObservableCollection base class.
- `Bindable`: BindableCollection.cs.
- `ObservableEx`: ObservableCollectionEx.cs.
- `Commands`: DelegateCommand.cs.

How the runtime is modelled:

- Objects are identified by `ObjId` numbers.
- A weak reference is alive when its object is in a `live` set, which each operation takes as a parameter. Garbage collection does not run during one call.
- Types are opaque `TypeId`s. `IsAssignableFrom` is a parameter `assignable`; lemmas about subtypes require it to be a preorder.
- An exception becomes an `Err` of a `Result`.
- User code that the core calls back takes the form of function parameters: handlers, property callbacks and delegates.
  - An event handler returns a `Reaction`. It holds the subscribe and unsubscribe requests the handler makes on the aggregator, and the result object it returns.
  - A property callback returns the registrations and removals it makes on its observer.
  - The model applies these requests to the live state while the walk goes on. This is what lets the snapshot property be stated: the set of objects notified is fixed when Publish starts, whatever the handlers do.
- Events raised are appended to a `raised` log, or to ghost logs for the calls the core makes into WPF (`PropertyChangedEventManager`, `CommandManager`).

Where the code decides a case, the model follows the code:

- Handler order. Calls within one subscriber follow the order of its capability map. A type that is declared again keeps its first position and takes the later method (`supportedHandlers[type] = method`).
- Non-generic `DelegateCommand(Action, Func<bool>)` with a null predicate. The predicate is wrapped in a lambda, so CanExecute throws NullReferenceException instead of answering true (`Commands.NewDelegateCommandWithPredicate`).

## Model

| member | source | states |
|---|---|---|
| Seqs.IndexOf | source/CupcakeMvvM/Framework/BindableCollection.cs:214 | List.IndexOf: -1 exactly when the item is absent; otherwise the index of its first occurrence |
| Seqs.RemoveFirstAt | source/CupcakeMvvM/EventAggregator.cs:119 | List.Remove deletes exactly the element at IndexOf and keeps the others in order |
| Seqs.RemoveFirstMultiset | source/CupcakeMvvM/EventAggregator.cs:119 | Remove takes out one occurrence of a present item and leaves the list unchanged for an absent one |
| Seqs.RemoveEachMultiset | source/CupcakeMvvM/Framework/BindableCollection.cs:212-219 | removing items one by one is multiset difference: each item removes at most one occurrence, and absent items are ignored |
| Seqs.RemoveEachDistinct | source/CupcakeMvvM/EventAggregator.cs:76 | on a list without repeats, removing the dead handlers one by one keeps exactly the others, in their order |
| Seqs.RemoveEachShrinks | source/CupcakeMvvM/EventAggregator.cs:76 | removal never adds elements and keeps a repeat-free list repeat-free |
| Seqs.WithoutMembers | source/CupcakeMvvM/EventAggregator.cs:72-78 | an element survives the prune exactly when it was there and is not in the dead list |
| Subscriptions.PutLookup | source/CupcakeMvvM/EventAggregator.cs:143 | the dictionary store keeps keys unique; afterwards the key maps to the new method and every other entry is unchanged |
| Subscriptions.SupportedLookup | source/CupcakeMvvM/EventAggregator.cs:133-145 | the capability map has unique keys and binds a type to a method exactly when the last declaration of that type with a resolvable Handle method names it; declarations without one are ignored |
| Subscriptions.NewHandler | source/CupcakeMvvM/EventAggregator.cs:129-146 | a new Handler refers to the subscriber and holds the capability map built from its declarations |
| Subscriptions.Matches | source/CupcakeMvvM/EventAggregator.cs:175 | a handler matches an instance only when its weak reference resolves to that very instance |
| Subscriptions.IsDead | source/CupcakeMvvM/EventAggregator.cs:148 | a dead handler's reference no longer resolves, so it matches no instance |
| Subscriptions.Matching | source/CupcakeMvvM/EventAggregator.cs:158-160 | the capability entries Handle selects: exactly those whose type is assignable from the message type, in map order |
| Subscriptions.Handles | source/CupcakeMvvM/EventAggregator.cs:173 | a handler handles a type exactly when the selection of matching capability entries is non-empty |
| EventAggregation.FirstMatch | source/CupcakeMvvM/EventAggregator.cs:94 | the index of the first handler whose live target is the instance, or -1 when none matches |
| EventAggregation.SubscribeEffect | source/CupcakeMvvM/EventAggregator.cs:86-101 | re-subscribing a matched subscriber changes nothing; otherwise exactly one new handler is appended at the end; the list stays repeat-free with at most one entry per live subscriber |
| EventAggregation.UnsubscribeEffect | source/CupcakeMvvM/EventAggregator.cs:107-122 | Unsubscribe removes exactly the first matching handler and keeps the rest in order; with no match it changes nothing |
| EventAggregation.UnsubscribeIsFinal | source/CupcakeMvvM/EventAggregator.cs:107-122 | after a live subscriber is unsubscribed, no handler refers to it |
| EventAggregation.ApplyRequestsInvariant | source/CupcakeMvvM/EventAggregator.cs:86-122 | any sequence of Subscribe and Unsubscribe calls keeps the handler list well formed and unique per live subscriber |
| EventAggregation.HandleSpecDeliveries | source/CupcakeMvvM/EventAggregator.cs:158-168 | Handle calls a method exactly for the capability entries whose type is assignable from the message's runtime type |
| EventAggregation.HandleSpecExactly | source/CupcakeMvvM/EventAggregator.cs:158-168 | Handle's calls are exactly one per matching capability entry, in map order, and the results passed on are exactly the non-null ones, in call order |
| EventAggregation.WalkExactly | source/CupcakeMvvM/EventAggregator.cs:64-70 | a Publish's deliveries are the concatenation, in snapshot order, of each live snapshot handler's calls, one per matching entry in map order; dead handlers contribute none; the processed results are concatenated likewise |
| EventAggregation.WalkDeliveries | source/CupcakeMvvM/EventAggregator.cs:64-70 | a Publish delivers a message to a subscriber's method exactly when a snapshot handler for that subscriber is live and has a matching entry for that method |
| EventAggregation.WalkDead | source/CupcakeMvvM/EventAggregator.cs:68-70 | the dead list holds exactly the snapshot handlers whose subscriber is no longer live |
| EventAggregation.WalkInOrder | source/CupcakeMvvM/EventAggregator.cs:68-70 | deliveries follow snapshot order: walking a + b delivers a's calls, then b's |
| EventAggregation.SnapshotFixesRecipients | source/CupcakeMvvM/EventAggregator.cs:58-70 | who is called and who is found dead does not depend on what the handlers do, including subscribing or unsubscribing during the walk |
| EventAggregation.HandlerExistsIffDelivered | source/CupcakeMvvM/EventAggregator.cs:37-40 | HandlerExistsFor the runtime type of a message is true exactly when publishing it would deliver to somebody |
| EventAggregation.HandlerExistsForSubtype | source/CupcakeMvvM/EventAggregator.cs:173 | a handler found for a type is also found for every type assignable to it |
| EventAggregation.PublishPrunesExactlyTheDead | source/CupcakeMvvM/EventAggregator.cs:72-78 | after Publish the list is what the handlers left it, minus exactly the snapshot handlers found dead; it stays well formed and unique per live subscriber |
| EventAggregation.NotSubscribedNotDelivered | source/CupcakeMvvM/EventAggregator.cs:150-171 | a subscriber with no handler in the snapshot receives nothing |
| EventAggregation.EventAggregator.constructor | source/CupcakeMvvM/EventAggregator.cs:19-27 | the aggregator starts with no handlers |
| EventAggregation.EventAggregator.Subscribe | source/CupcakeMvvM/EventAggregator.cs:86-101 | null is refused with ArgumentNullException("subscriber"); otherwise the list becomes SubscribeSpec of the old list |
| EventAggregation.EventAggregator.Unsubscribe | source/CupcakeMvvM/EventAggregator.cs:107-122 | null is refused with ArgumentNullException("subscriber"); otherwise the list becomes UnsubscribeSpec of the old list |
| EventAggregation.EventAggregator.HandlerExistsFor | source/CupcakeMvvM/EventAggregator.cs:37-40 | true exactly when some live handler handles the type; the list is not pruned |
| EventAggregation.EventAggregator.Handle | source/CupcakeMvvM/EventAggregator.cs:150-171 | false for a dead subscriber; otherwise true, and the matching methods are called in map order, passing non-null results to HandlerResultProcessing |
| EventAggregation.EventAggregator.Notify | source/CupcakeMvvM/EventAggregator.cs:64-70 | walks the snapshot: the deliveries, the processed results, the dead list and the state the handlers leave are those of WalkSpec |
| EventAggregation.EventAggregator.Perform | source/CupcakeMvvM/EventAggregator.cs:86-122 | the Subscribe and Unsubscribe calls a running handler makes are applied in order, as ApplyRequests; the list stays well formed and nothing is delivered |
| EventAggregation.EventAggregator.RemoveDead | source/CupcakeMvvM/EventAggregator.cs:72-78 | each dead handler is removed from the live list with List.Remove |
| EventAggregation.EventAggregator.Publish | source/CupcakeMvvM/EventAggregator.cs:47-80 | a null message or marshaller is refused before anything changes; otherwise the handler list becomes AfterPublish of the old one and the deliveries are those of the snapshot walk |
| AssemblySources.FindTypeByNames | source/CupcakeMvvM/AssemblySource.cs:29-36 | null names give null; otherwise the cached type of the first name present in the cache, or null when none is |
| AssemblySources.CacheOfContents | source/CupcakeMvvM/AssemblySource.cs:46-48 | the cache's keys are exactly the types' full names, and each key maps to a type of that name; with distinct names, to that very type |
| AssemblySources.FirstDuplicateMeansRepeat | source/CupcakeMvvM/AssemblySource.cs:48 | Dictionary.Add fails exactly when two types share a full name, at the first type whose name was already added |
| AssemblySources.AssemblySource.constructor | source/CupcakeMvvM/AssemblySource.cs:38 | the cache starts empty |
| AssemblySources.AssemblySource.Initialize | source/CupcakeMvvM/AssemblySource.cs:43-48 | clears the cache and adds every type under its full name; on a repeated name it throws ArgumentException (DuplicateKey) with the types before it already added |
| ViewLocation.Replace | source/CupcakeMvvM/ViewLocator.cs:76 | String.Replace (ordinal): replacing a value by itself changes nothing, and a same-length replacement keeps the length |
| ViewLocation.ReplaceShortens | source/CupcakeMvvM/ViewLocator.cs:76 | replacing "ViewModel" by "View" changes nothing when it does not occur and strictly shortens the name when it does |
| ViewLocation.TransformName | source/CupcakeMvvM/ViewLocator.cs:72-78 | the candidates never contain the input name; the last is name + "View"; the "ViewModel"→"View" replacement comes first exactly when the name contains "ViewModel" |
| ViewLocation.StripGenericSuffix | source/CupcakeMvvM/ViewLocator.cs:28-33 | the name up to its first backtick: a prefix without a backtick, the whole name when there is none |
| ViewLocation.AfterFirstDot | source/CupcakeMvvM/ViewLocator.cs:54-57 | the whole text when it has no '.'; otherwise the suffix that follows a '.' with no '.' before it, i.e. exactly the text after the first '.' |
| ViewLocation.ModifyModelTypeAtDesignTime | source/CupcakeMvvM/ViewLocator.cs:49-61 | a name not starting with '_', or without a '.', is unchanged; otherwise the result is a suffix cut right after a '.' |
| ViewLocation.DesignTimeDropsTwoSegments | source/CupcakeMvvM/ViewLocator.cs:52-57 | "_a.b.rest", with no dot in a or b, becomes "rest" |
| ViewLocation.DesignTimeDropsOneSegment | source/CupcakeMvvM/ViewLocator.cs:52-57 | "_a.rest", with no dot in a or rest, becomes "rest": the second step finds no dot and keeps the text. With DesignTimeDropsTwoSegments this fixes the result for every name starting with '_' that has a dot |
| ViewLocation.LocateTypeForModelType | source/CupcakeMvvM/ViewLocator.cs:18-44 | null exactly when no candidate view name is cached; otherwise the first cached candidate |
| ViewLocation.LocatedViewIsNamedCandidate | source/CupcakeMvvM/ViewLocator.cs:28-36 | with a cache from Initialize, the view found is one of the loaded types and is named by a candidate; outside design mode and for a non-generic name, it is never the model type itself |
| PropertyObservation.PropertyNameOf | source/CupcakeMvvM/Framework/PropertyObserver.cs:74-79 | a null expression gives ArgumentNullException("expression"); the name is accepted exactly when the body is a property access with a non-empty name; a field access gives the NullReferenceException of GetPropertyName; an empty name or a body without a member expression gives ArgumentException |
| PropertyObservation.GetPropertyName | source/CupcakeMvvM/Framework/PropertyObserver.cs:151-175 | the property's name for a property access, null for a body without a member expression, and NullReferenceException exactly for a member that is not a property |
| PropertyObservation.CheckRegistration | source/CupcakeMvvM/Framework/PropertyObserver.cs:74-82 | the expression checks come first; then a null handler gives ArgumentNullException("handler") |
| PropertyObservation.CallsCoverSnapshot | source/CupcakeMvvM/Framework/PropertyObserver.cs:128-135 | for an empty property name, every handler of the snapshot is called exactly once |
| PropertyObservation.PropertyObserver.constructor | source/CupcakeMvvM/Framework/PropertyObserver.cs:56-63 | observes the source with an empty handler map |
| PropertyObservation.PropertyObserver.Create | source/CupcakeMvvM/Framework/PropertyObserver.cs:56-63 | a null source is refused with ArgumentNullException("propertySource") |
| PropertyObservation.PropertyObserver.RegisterHandler | source/CupcakeMvvM/Framework/PropertyObserver.cs:71-92 | after the argument checks, a live source maps the name to the handler and adds a listener; a dead source changes nothing |
| PropertyObservation.PropertyObserver.UnregisterHandler | source/CupcakeMvvM/Framework/PropertyObserver.cs:99-119 | after the argument checks, a live source drops a registered name and removes its listener; anything else changes nothing |
| PropertyObservation.PropertyObserver.Perform | source/CupcakeMvvM/Framework/PropertyObserver.cs:71-119 | the registrations and removals a callback makes go through RegisterHandler and UnregisterHandler in order, as EditedAll; no callback is invoked |
| PropertyObservation.PropertyObserver.Invoke | source/CupcakeMvvM/Framework/PropertyObserver.cs:142 | one callback call is recorded, and the registrations it makes are applied |
| PropertyObservation.PropertyObserver.InvokeAll | source/CupcakeMvvM/Framework/PropertyObserver.cs:128-135 | calls the handlers of a copy of the map, once per registered name, even while callbacks change the map |
| PropertyObservation.PropertyObserver.ReceiveWeakEvent | source/CupcakeMvvM/Framework/PropertyObserver.cs:121-149 | another manager gives false with no effect; an empty name calls every handler and gives true; a registered name calls its handler and gives true; an unregistered name gives false |
| CollectionEvents.InsertNotifications | source/CupcakeMvvM/Framework/BindableCollection.cs:81 | base.InsertItem raises "Count" and "Item[]", then the Add change for the item and index last |
| CollectionEvents.RemoveNotifications | source/CupcakeMvvM/Framework/BindableCollection.cs:125 | base.RemoveItem raises "Count" and "Item[]", then the Remove change for the item and index last |
| CollectionEvents.SetNotifications | source/CupcakeMvvM/Framework/BindableCollection.cs:104 | base.SetItem raises "Item[]" (not "Count"), then the Replace change for the old and new item last |
| CollectionEvents.ResetNotifications | source/CupcakeMvvM/Framework/BindableCollection.cs:195-197 | "Count", "Item[]", then a Reset last, as ClearItems and the range operations raise them |
| Bindable.BindableCollection.constructor | source/CupcakeMvvM/Framework/BindableCollection.cs:18-21 | empty and notifying |
| Bindable.BindableCollection.FromCollection | source/CupcakeMvvM/Framework/BindableCollection.cs:27-31 | holds the given elements in order, and notifies |
| Bindable.BindableCollection.NotifyOfPropertyChange | source/CupcakeMvvM/Framework/BindableCollection.cs:42-46 | raises PropertyChanged for the name exactly when notifying |
| Bindable.BindableCollection.Refresh | source/CupcakeMvvM/Framework/BindableCollection.cs:51-59 | raises "Count", "Item[]" and Reset when notifying, nothing otherwise; the items do not change |
| Bindable.BindableCollection.InsertItem | source/CupcakeMvvM/Framework/BindableCollection.cs:66-69 | inserts at the index; the base notifications pass only when notifying |
| Bindable.BindableCollection.InsertItemBase | source/CupcakeMvvM/Framework/BindableCollection.cs:79-82 | the base insertion and its gated "Count", "Item[]", Add notifications |
| Bindable.BindableCollection.SetItem | source/CupcakeMvvM/Framework/BindableCollection.cs:89-92 | replaces one slot; its "Item[]" and Replace notifications are gated |
| Bindable.BindableCollection.SetItemBase | source/CupcakeMvvM/Framework/BindableCollection.cs:102-105 | the base replacement and its gated notifications |
| Bindable.BindableCollection.RemoveItem | source/CupcakeMvvM/Framework/BindableCollection.cs:111-114 | removes the slot; its notifications are gated |
| Bindable.BindableCollection.RemoveItemBase | source/CupcakeMvvM/Framework/BindableCollection.cs:123-126 | the base removal and its gated notifications |
| Bindable.BindableCollection.ClearItems | source/CupcakeMvvM/Framework/BindableCollection.cs:131-134 | empties the list; its Reset notifications are gated |
| Bindable.BindableCollection.ClearItemsBase | source/CupcakeMvvM/Framework/BindableCollection.cs:142-145 | the base clear and its gated notifications |
| Bindable.BindableCollection.OnCollectionChanged | source/CupcakeMvvM/Framework/BindableCollection.cs:151-157 | passes CollectionChanged on exactly when notifying |
| Bindable.BindableCollection.OnPropertyChanged | source/CupcakeMvvM/Framework/BindableCollection.cs:163-169 | passes PropertyChanged on exactly when notifying |
| Bindable.BindableCollection.AddRange | source/CupcakeMvvM/Framework/BindableCollection.cs:177-200 | appends the items in order; no per-item event escapes; IsNotifying is restored; one "Count", "Item[]", Reset burst passes its gate |
| Bindable.BindableCollection.RemoveRange | source/CupcakeMvvM/Framework/BindableCollection.cs:206-226 | each item removes its first occurrence, absent ones are skipped; the same silence, restore and burst as AddRange |
| ObservableEx.ObservableCollectionEx.constructor | source/CupcakeMvvM/Framework/ObservableCollectionEx.cs:52-53 | empty, observing nothing |
| ObservableEx.ObservableCollectionEx.FromSequence | source/CupcakeMvvM/Framework/ObservableCollectionEx.cs:55-63 | holds the elements, each observed once |
| ObservableEx.ObservableCollectionEx.ObserveAll | source/CupcakeMvvM/Framework/ObservableCollectionEx.cs:154-158 | subscribes once to every item in the list |
| ObservableEx.ObservableCollectionEx.OnCollectionChanged | source/CupcakeMvvM/Framework/ObservableCollectionEx.cs:108-125 | detaches from the old items of a Remove or Replace and attaches to the new items of an Add or Replace, then raises the change unconditionally |
| ObservableEx.ObservableCollectionEx.InsertItem | source/CupcakeMvvM/Framework/ObservableCollectionEx.cs:108-125 | the inherited insertion: refused under reentrancy; otherwise inserts, raises "Count", "Item[]", Add, and the new item is observed |
| ObservableEx.ObservableCollectionEx.Add | source/CupcakeMvvM/Framework/ObservableCollectionEx.cs:79 | inserts at the end, as InsertItem |
| ObservableEx.ObservableCollectionEx.RemoveItem | source/CupcakeMvvM/Framework/ObservableCollectionEx.cs:108-125 | the inherited removal: the removed item is no longer observed |
| ObservableEx.ObservableCollectionEx.SetItem | source/CupcakeMvvM/Framework/ObservableCollectionEx.cs:108-125 | the inherited replacement: the old item is detached and the new one observed |
| ObservableEx.ObservableCollectionEx.DetachAll | source/CupcakeMvvM/Framework/ObservableCollectionEx.cs:102-103 | unsubscribes once from every item in the list |
| ObservableEx.ObservableCollectionEx.ClearItems | source/CupcakeMvvM/Framework/ObservableCollectionEx.cs:100-106 | detaches from every item, then clears with a Reset; afterwards nothing is observed |
| ObservableEx.ObservableCollectionEx.AddSilent | source/CupcakeMvvM/Framework/ObservableCollectionEx.cs:74-85 | appends and observes the item, and raises what Add raises; the suppress flag is false afterwards, even when Add throws |
| ObservableEx.ObservableCollectionEx.OnItemPropertyChanged | source/CupcakeMvvM/Framework/ObservableCollectionEx.cs:127-141 | while suppressed, nothing; otherwise ItemPropertyChanged for the index and name, then a Reset |
| ObservableEx.ObservableCollectionEx.ChildPropertyChanged | source/CupcakeMvvM/Framework/ObservableCollectionEx.cs:143-152 | a sender not in the list gives ArgumentException; otherwise the change is re-raised at the sender's first index |
| ObservableEx.ObservableCollectionEx.OnCollectionChangedAsDocumented | source/CupcakeMvvM/Framework/ObservableCollectionEx.cs:108-125 | attaches and detaches as OnCollectionChanged, but raises nothing while suppressed |
| ObservableEx.ObservableCollectionEx.AddSilentAsDocumented | source/CupcakeMvvM/Framework/ObservableCollectionEx.cs:70-85 | appends and observes the item without raising any CollectionChanged |
| ObservableEx.AddSilentRaisesCollectionChanged | source/CupcakeMvvM/Framework/ObservableCollectionEx.cs:70-85 | AddSilent on an empty collection raises CollectionChanged(Add) |
| ObservableEx.AddSilentAsDocumentedIsSilent | source/CupcakeMvvM/Framework/ObservableCollectionEx.cs:70-73 | the documented AddSilent on an empty collection raises only "Count" and "Item[]" |
| Commands.DelegateCommand.constructor | source/CupcakeMvvM/DelegateCommand.cs:32-40 | stores both delegates; not executing |
| Commands.DelegateCommand.Create | source/CupcakeMvvM/DelegateCommand.cs:32-40 | ArgumentNullException("executeMethod") exactly when both delegates are null |
| Commands.DelegateCommand.CreateWithoutPredicate | source/CupcakeMvvM/DelegateCommand.cs:27-30 | without a predicate, a null execute delegate is refused |
| Commands.DelegateCommand.CanExecute | source/CupcakeMvvM/DelegateCommand.cs:54-60 | true without a predicate; otherwise the predicate's answer |
| Commands.DelegateCommand.CommandCanExecute | source/CupcakeMvvM/DelegateCommand.cs:67-70 | false while executing, without calling the predicate; true only when not executing |
| Commands.DelegateCommand.Execute | source/CupcakeMvvM/DelegateCommand.cs:62-65 | runs the execute delegate once; a null one throws NullReferenceException |
| Commands.DelegateCommand.RaiseCanExecuteChanged | source/CupcakeMvvM/DelegateCommand.cs:87-90 | one requery request |
| Commands.DelegateCommand.CommandExecute | source/CupcakeMvvM/DelegateCommand.cs:72-85 | the delegate runs seeing isExecuting set; afterwards isExecuting is false whether it returned or threw; two requeries |
| Commands.NewDelegateCommand | source/CupcakeMvvM/DelegateCommand.cs:8-10 | the non-generic command ignores its parameter, always can execute, and fails only on execution when the action is null |
| Commands.NewDelegateCommandWithPredicate | source/CupcakeMvvM/DelegateCommand.cs:12-14 | both delegates ignore the parameter; a null predicate makes CanExecute throw |

## Left out

- Locks (`lock (handlers)`, `addRangeLock`) and concurrency: every operation runs alone, so a lock adds nothing.
- Marshallers: Publish is modelled only with a marshaller that runs its action at once. Deferred or threaded marshalling, and several Publish calls interleaving, are not modelled.
- A Publish made from inside a handler is not modelled. Handlers may only subscribe and unsubscribe.
- Exceptions thrown by event handlers, property callbacks and the handler-result processor are not modelled. `PropertyObservation.PropertyObserver.Perform` requires the callbacks to pass valid property names for the same reason.
- Garbage collection: the set of live objects is an input, fixed during one call.
- Reflection: the interface scan in the Handler constructor is given as a list of capabilities, and `ExtractTypes` as a list of types.
- The culture-sensitive `StartsWith("_")` is modelled as an ordinal comparison.
- The RegisterDataTemplate loop at the end of Initialize (AssemblySource.cs:50): DataTemplateFactory.cs is not part of this model.
- `Console.WriteLine` in LocateTypeForModelType.
- `ViewTools.InDesignMode` is a parameter.
- The `context` argument of TransformName is unused and left out.
- `Execute.OnUIThread` runs its action at once; Execute.cs is not part of this model.
- PropertyChangedEventManager and CommandManager calls are kept as ghost logs only.
- The event subscriptions of ObservableCollectionEx items are kept as a multiset of observed items.
- `CanExecuteChanged` add/remove, which only forwards to CommandManager, is left out.
- Dictionary enumeration order in PropertyObserver is unspecified. `PropertyObservation.PropertyObserver.InvokeAll` returns the order it used as a ghost value, and its contract holds for every such order.
- `CheckReentrancy` of the ObservableCollection base is modelled on the ObservableCollectionEx insertion path only, as a flag.
- Casts of `object` parameters and senders (`(T)parameter`, `(T)sender`) that could throw InvalidCastException are not modelled: parameters are already of the right type.
- Null collections passed to the collection constructors, and null items in them, are not modelled.
- Bindable.BindableCollection.AddRange: the source has no try/finally around the loop, so an enumeration that throws (a null `items`, or an `items` that is the collection itself and changes under its enumerator) leaves IsNotifying false and raises no Reset. The model takes the items as a value, so it captures neither the throwing path nor a collection enumerating itself.
- Bindable.BindableCollection.RemoveRange: the same as AddRange; a throwing enumeration leaves IsNotifying false with no Reset, and self-aliased items are not modelled.
- `Commands.DelegateCommand.constructor` requires one delegate to be present; `Commands.DelegateCommand.Create` is the path that checks and throws.
- RelayCommand, PropertyChangedBase, ViewModelBase, CommandBehavior, the bootstrapper, behaviours and the WPF glue are outside the modelled core.

## Findings

| source | as written | input that shows it | evidently intended | confidence | as-written member | corrected member |
|---|---|---|---|---|---|---|
| source/CupcakeMvvM/Framework/ObservableCollectionEx.cs:70-85 | AddSilent sets `_suppressNotification` around `Add`, but the OnCollectionChanged override (lines 108-125) never reads the flag, so Add's CollectionChanged(Add) event is raised as usual | AddSilent(x) on an empty collection raises "Count", "Item[]" and CollectionChanged(Add x at 0) | as documented, no CollectionChanged while suppressed; the item is still added and observed (the TODO at line 88 also says the conversion lost something) | medium, not executed | ObservableEx.AddSilentRaisesCollectionChanged | ObservableEx.ObservableCollectionEx.AddSilentAsDocumented |
