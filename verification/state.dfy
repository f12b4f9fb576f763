/**
  The State descriptor of ravestate: a declaration (signal, write, read, cond,
  action, is_receptor) is turned into an immutable `State` record, with a flag
  telling whether the "will never be activated" warning is logged.
*/
module States {
  import opened Wrappers
  import opened Constraints

  /** What an action may return: `NoResult` (Python's `None`), `Delete` or `Emit`. */
  datatype ActivationResult = NoResult | Delete | Emit

  /**
    A `read` or `write` argument as a caller may pass it: one property name
    as a bare string, or a tuple of names.
  */
  datatype PropsArg = One(text: string) | Many(items: seq<string>)

  /**
    A `signal` argument: either a plain string (the decorator's default is
    the empty string) or a signal object carrying a `signalname`.
  */
  datatype SignalArg = Text(text: string) | Signal(signalname: string)

  /** The error `signal_name` raises when the signal has no `signalname`. */
  datatype AttributeError = AttributeError(attribute: string)

  /**
    A callable action: its `__name__` and the function it computes from a
    context and the further call arguments.
  */
  datatype Action<!C, !A> = Action(name: string, run: (C, A) -> ActivationResult)

  datatype State<!C, !A> = State(
    name: string,
    signal: SignalArg,
    writeProps: seq<string>,
    readProps: seq<string>,
    constraint: Option<Constraint>,
    action: Action<C, A>,
    moduleName: string)

  /** The outcome of declaring a state: the record and whether a warning is logged. */
  datatype Construction<!C, !A> = Construction(state: State<C, A>, warned: bool)

  /**
    Python's `len` of a `read`/`write` argument before it is normalised: it
    is zero for the empty string as well as for the empty tuple.
  */
  function RawLength(p: PropsArg): (n: nat)
    ensures n == 0 <==> p == One("") || p == Many([])
  {
    match p
    case One(t) => |t|
    case Many(xs) => |xs|
  }

  /** A bare string becomes a one-element tuple; a tuple is kept as given. */
  function Normalize(p: PropsArg): (t: seq<string>)
    ensures p.Many? ==> t == p.items
    ensures p.One? ==> |t| == 1 && t[0] == p.text
    ensures |t| == 0 <==> p == Many([])
  {
    match p
    case One(t) => [t]
    case Many(xs) => xs
  }

  /**
    `State.__init__`. The warning is decided on the raw `read` argument,
    before it is normalised; when no condition is given and the normalised
    `read` is non-empty, the trigger becomes the disjunction of one
    changed-conjunct per read property.
  */
  function Build<C, A>(signal: SignalArg, write: PropsArg, read: PropsArg,
                       cond: Option<Constraint>, action: Action<C, A>,
                       isReceptor: bool := false): (b: Construction<C, A>)
    ensures b.warned <==> RawLength(read) == 0 && cond.None? && !isReceptor
    ensures b.state.name == action.name && b.state.action == action
    ensures b.state.signal == signal
    ensures write.One? ==> b.state.writeProps == [write.text]
    ensures write.Many? ==> b.state.writeProps == write.items
    ensures read.One? ==> b.state.readProps == [read.text]
    ensures read.Many? ==> b.state.readProps == read.items
    ensures cond.Some? ==> b.state.constraint == cond
    ensures cond.None? && |b.state.readProps| == 0 ==> b.state.constraint.None?
    ensures cond.None? && |b.state.readProps| > 0 ==>
              b.state.constraint.Some? && IsChangedDisjunction(b.state.constraint.value, b.state.readProps)
    ensures b.state.moduleName == ""
  {
    var warned := RawLength(read) == 0 && cond.None? && !isReceptor;
    var writeProps := Normalize(write);
    var readProps := Normalize(read);
    var constraint :=
      if cond.None? && |readProps| > 0 then Some(Disjunct(ChangedConjuncts(readProps)))
      else cond;
    Construction(State(action.name, signal, writeProps, readProps, constraint, action, ""), warned)
  }

  /** `State.__call__`: forwards the context and arguments to the action. */
  function Invoke<C, A>(st: State<C, A>, context: C, args: A): ActivationResult
  {
    st.action.run(context, args)
  }

  /**
    `State.signal_name`: "<module_name>:<signalname>"; a signal given as a
    plain string has no `signalname`, so the attribute lookup fails.
  */
  function SignalName<C, A>(st: State<C, A>): (r: Result<string, AttributeError>)
    ensures st.signal.Signal? ==> r.Success?
    ensures r.Success? ==> st.signal.Signal?
                           && |r.value| == |st.moduleName| + 1 + |st.signal.signalname|
                           && r.value[..|st.moduleName|] == st.moduleName
                           && r.value[|st.moduleName|] == ':'
                           && r.value[|st.moduleName| + 1..] == st.signal.signalname
    ensures r.Failure? ==> r.error == AttributeError("signalname")
  {
    match st.signal
    case Signal(n) => Success(st.moduleName + ":" + n)
    case Text(_) => Failure(AttributeError("signalname"))
  }

  /** The arguments of the `state` decorator. */
  datatype StateArgs = StateArgs(signal: SignalArg, write: PropsArg, read: PropsArg, cond: Option<Constraint>)

  /** The decorator's defaults: `signal=""`, `write=()`, `read=()`, `cond=None`. */
  const DefaultArgs: StateArgs := StateArgs(Text(""), Many([]), Many([]), None)

  /** `state(...)`: returns the decorator that builds a non-receptor State around an action. */
  function StateDecorator<C(!new), A(!new)>(args: StateArgs): (decorate: Action<C, A> -> Construction<C, A>)
    ensures forall action :: decorate(action) == Build(args.signal, args.write, args.read, args.cond, action, false)
    ensures forall action :: decorate(action).warned <==> RawLength(args.read) == 0 && args.cond.None?
  {
    action => Build(args.signal, args.write, args.read, args.cond, action, false)
  }
}
