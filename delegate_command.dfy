/**
 * DelegateCommand<T>: an ICommand built from an execute delegate and an
 * optional can-execute predicate. While it is executing, ICommand.CanExecute
 * reports false; ICommand.Execute itself does not check. Delegates are total
 * functions whose Err result stands for an exception they throw.
 * CommandManager.InvalidateRequerySuggested is counted in a ghost field.
 */
module Commands {
  import opened Wrappers
  import opened Subscriptions

  /** An `object` parameter of the non-generic command: null or an object. */
  type Parameter = Option<ObjId>

  /** One run of the execute delegate, with the isExecuting flag it saw. */
  datatype Invocation<T> = Invocation(parameter: T, whileExecuting: bool)

  class DelegateCommand<T> {
    const executeMethod: Option<T -> Result<()>>
    const canExecuteMethod: Option<T -> Result<bool>>
    var isExecuting: bool
    /** InvalidateRequerySuggested calls made by RaiseCanExecuteChanged. */
    ghost var requeries: nat
    /** Every run of the execute delegate. */
    ghost var invocations: seq<Invocation<T>>

    constructor (executeMethod: Option<T -> Result<()>>, canExecuteMethod: Option<T -> Result<bool>>)
      requires executeMethod.Some? || canExecuteMethod.Some?
      ensures this.executeMethod == executeMethod && this.canExecuteMethod == canExecuteMethod
      ensures !isExecuting && requeries == 0 && invocations == []
    {
      this.executeMethod := executeMethod;
      this.canExecuteMethod := canExecuteMethod;
      isExecuting := false;
      requeries := 0;
      invocations := [];
    }

    /**
     * The two-argument constructor with its null check: only two null delegates
     * are refused; a null execute delegate with a predicate is accepted.
     */
    static method Create(executeMethod: Option<T -> Result<()>>, canExecuteMethod: Option<T -> Result<bool>>)
      returns (r: Result<DelegateCommand<T>>)
      ensures r.Err? <==> executeMethod.None? && canExecuteMethod.None?
      ensures r.Err? ==> r.error == ArgumentNull("executeMethod")
      ensures r.Ok? ==>
        && fresh(r.value)
        && r.value.executeMethod == executeMethod && r.value.canExecuteMethod == canExecuteMethod
        && !r.value.isExecuting
    {
      if executeMethod.None? && canExecuteMethod.None? {
        return Err(ArgumentNull("executeMethod"));
      }
      var c := new DelegateCommand(executeMethod, canExecuteMethod);
      return Ok(c);
    }

    /** The one-argument constructor: the predicate is null, so a null execute delegate is refused. */
    static method CreateWithoutPredicate(executeMethod: Option<T -> Result<()>>) returns (r: Result<DelegateCommand<T>>)
      ensures r.Err? <==> executeMethod.None?
      ensures r.Ok? ==> fresh(r.value) && r.value.executeMethod == executeMethod && r.value.canExecuteMethod == None
    {
      r := Create(executeMethod, None);
    }

    /** CanExecute(T): true without a predicate, otherwise whatever the predicate yields. */
    function CanExecute(parameter: T): (r: Result<bool>)
      ensures canExecuteMethod.None? ==> r == Ok(true)
      ensures canExecuteMethod.Some? ==> r == canExecuteMethod.value(parameter)
    {
      if canExecuteMethod.None? then Ok(true) else canExecuteMethod.value(parameter)
    }

    /**
     * ICommand.CanExecute: false while executing, without consulting the
     * predicate (the && short-circuits); otherwise CanExecute(T).
     */
    function CommandCanExecute(parameter: T): (r: Result<bool>)
      reads this
      ensures isExecuting ==> r == Ok(false)
      ensures r == Ok(true) ==> !isExecuting
      ensures !isExecuting ==> r == CanExecute(parameter)
    {
      if isExecuting then Ok(false) else CanExecute(parameter)
    }

    /** What Execute(T) yields: the delegate's result, or a NullReferenceException without one. */
    function ExecuteResult(parameter: T): Result<()> {
      if executeMethod.None? then Err(NullReference) else executeMethod.value(parameter)
    }

    /** RaiseCanExecuteChanged. */
    method RaiseCanExecuteChanged()
      modifies this
      ensures isExecuting == old(isExecuting) && invocations == old(invocations)
      ensures requeries == old(requeries) + 1
    {
      requeries := requeries + 1;
    }

    /** Execute(T): runs the delegate once. */
    method Execute(parameter: T) returns (r: Result<()>)
      modifies this
      ensures r == ExecuteResult(parameter)
      ensures isExecuting == old(isExecuting) && requeries == old(requeries)
      ensures invocations == old(invocations) + (if executeMethod.Some? then [Invocation(parameter, isExecuting)] else [])
    {
      if executeMethod.None? {
        return Err(NullReference);
      }
      invocations := invocations + [Invocation(parameter, isExecuting)];
      r := executeMethod.value(parameter);
    }

    /**
     * ICommand.Execute: isExecuting is set around the run and cleared in the
     * finally block, so it is false afterwards whether the delegate returns,
     * throws, or is null; the delegate runs seeing isExecuting set, and the
     * requery is raised on entry and on exit.
     */
    method CommandExecute(parameter: T) returns (r: Result<()>)
      modifies this
      ensures r == ExecuteResult(parameter)
      ensures !isExecuting
      ensures requeries == old(requeries) + 2
      ensures invocations == old(invocations) + (if executeMethod.Some? then [Invocation(parameter, true)] else [])
    {
      isExecuting := true;
      RaiseCanExecuteChanged();
      r := Execute(parameter);
      isExecuting := false;
      RaiseCanExecuteChanged();
    }
  }

  /** The parameterless execute delegate behind `o => executeMethod()`. */
  function IgnoreParameter(executeMethod: Option<() -> Result<()>>): Parameter -> Result<()> {
    (o: Parameter) => if executeMethod.None? then Err(NullReference) else executeMethod.value()
  }

  /** The parameterless predicate behind `o => canExecuteMethod()`. */
  function IgnoreParameterPredicate(canExecuteMethod: Option<() -> Result<bool>>): Parameter -> Result<bool> {
    (o: Parameter) => if canExecuteMethod.None? then Err(NullReference) else canExecuteMethod.value()
  }

  /**
   * The non-generic DelegateCommand(Action): wraps the action in a lambda that
   * ignores its parameter. The lambda is never null, so construction never
   * fails; a null action fails only when the command executes.
   */
  method NewDelegateCommand(executeMethod: Option<() -> Result<()>>) returns (c: DelegateCommand<Parameter>)
    ensures fresh(c) && !c.isExecuting && c.canExecuteMethod == None
    ensures forall o :: c.ExecuteResult(o) == if executeMethod.None? then Err(NullReference) else executeMethod.value()
    ensures forall o :: c.CanExecute(o) == Ok(true)
  {
    c := new DelegateCommand(Some(IgnoreParameter(executeMethod)), None);
  }

  /**
   * DelegateCommand(Action, Func<bool>): both delegates are wrapped, so a null
   * predicate is not "no predicate": CanExecute then throws instead of
   * answering true.
   */
  method NewDelegateCommandWithPredicate(executeMethod: Option<() -> Result<()>>, canExecuteMethod: Option<() -> Result<bool>>)
    returns (c: DelegateCommand<Parameter>)
    ensures fresh(c) && !c.isExecuting
    ensures forall o :: c.ExecuteResult(o) == if executeMethod.None? then Err(NullReference) else executeMethod.value()
    ensures forall o :: c.CanExecute(o) == if canExecuteMethod.None? then Err(NullReference) else canExecuteMethod.value()
  {
    c := new DelegateCommand(Some(IgnoreParameter(executeMethod)), Some(IgnoreParameterPredicate(canExecuteMethod)));
  }
}
