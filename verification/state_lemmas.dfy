/** Properties of the State builder that relate several of its members. */
module StateProperties {
  import opened Wrappers
  import opened Constraints
  import opened States

  /** Whether state `st` has a trigger and it is satisfied by the signals in `available`. */
  predicate Triggered<C, A>(st: State<C, A>, available: set<string>)
  {
    st.constraint.Some? && Holds(st.constraint.value, available)
  }

  /** A changed-conjunct holds exactly when its property's changed-signal is present. */
  lemma ChangedConjunctHolds(p: string, available: set<string>)
    ensures Holds(ChangedConjunct(p), available) <==> ChangedSignal(p) in available
  {
    var items := [SignalRef(ChangedSignal(p))];
    assert ChangedConjunct(p).items == items;
    assert Holds(ChangedConjunct(p), available) <==> Holds(items[0], available);
  }

  /** Reading back a list of changed-conjuncts gives the properties it was built from. */
  lemma ChangedConjunctsRoundTrip(props: seq<string>)
    ensures ChangedPropsOf(ChangedConjuncts(props)) == Some(props)
  {
    var cs := ChangedConjuncts(props);
    var r := ChangedPropsOf(cs);
    forall i | 0 <= i < |props| ensures r.value[i] == props[i] {
      assert ChangedConjunct(r.value[i]) == ChangedConjunct(props[i]);
      ChangedSignalInjective(r.value[i], props[i]);
    }
    assert r.value == props;
  }

  /** Distinct properties have distinct changed-signals. */
  lemma ChangedSignalInjective(p: string, q: string)
    requires ChangedSignal(p) == ChangedSignal(q)
    ensures p == q
  {
    assert p == ChangedSignal(p)[..|p|];
    assert q == ChangedSignal(q)[..|q|];
  }

  /**
    With no condition and a non-empty normalised `read`, the derived trigger
    reads back as exactly the read properties, in order.
  */
  lemma DerivedTriggerRecoversReads<C, A>(signal: SignalArg, write: PropsArg, read: PropsArg,
                                          action: Action<C, A>, isReceptor: bool)
    requires |Normalize(read)| > 0
    ensures Build(signal, write, read, None, action, isReceptor).state.constraint.Some?
    ensures ReadPropsOf(Build(signal, write, read, None, action, isReceptor).state.constraint.value)
            == Some(Normalize(read))
  {
    var st := Build(signal, write, read, None, action, isReceptor).state;
    assert st.readProps == Normalize(read);
    assert st.constraint == Some(Disjunct(ChangedConjuncts(st.readProps)));
    ChangedConjunctsRoundTrip(st.readProps);
  }

  /** Declarations with different read tuples and no condition get different derived triggers. */
  lemma DerivedTriggerInjective<C, A>(read1: PropsArg, read2: PropsArg, signal: SignalArg,
                                      write: PropsArg, action: Action<C, A>)
    requires |Normalize(read1)| > 0 && |Normalize(read2)| > 0
    requires Normalize(read1) != Normalize(read2)
    ensures Build(signal, write, read1, None, action).state.constraint
            != Build(signal, write, read2, None, action).state.constraint
  {
    DerivedTriggerRecoversReads(signal, write, read1, action, false);
    DerivedTriggerRecoversReads(signal, write, read2, action, false);
  }

  /**
    A derived trigger is satisfied exactly when the changed-signal of at
    least one read property is present: any single change suffices.
  */
  lemma DerivedTriggerFiresOnAnyChange<C, A>(signal: SignalArg, write: PropsArg, read: PropsArg,
                                             action: Action<C, A>, isReceptor: bool,
                                             available: set<string>)
    requires |Normalize(read)| > 0
    ensures var st := Build(signal, write, read, None, action, isReceptor).state;
            Triggered(st, available)
            <==> exists i :: 0 <= i < |st.readProps| && ChangedSignal(st.readProps[i]) in available
  {
    var st := Build(signal, write, read, None, action, isReceptor).state;
    var cs := st.constraint.value.items;
    assert |cs| == |st.readProps|;
    forall i | 0 <= i < |cs|
      ensures Holds(cs[i], available) <==> ChangedSignal(st.readProps[i]) in available
    {
      assert cs[i] == ChangedConjunct(st.readProps[i]);
      ChangedConjunctHolds(st.readProps[i], available);
    }
  }

  /**
    Derived triggers of two declarations whose normalised reads hold the
    same properties, in whatever order and multiplicity, are satisfied by
    exactly the same signal sets.
  */
  lemma DerivedTriggerDependsOnlyOnReadSet<C, A>(read1: PropsArg, read2: PropsArg, signal: SignalArg,
                                                 write: PropsArg, action: Action<C, A>,
                                                 isReceptor: bool, available: set<string>)
    requires |Normalize(read1)| > 0 && |Normalize(read2)| > 0
    requires forall p :: p in Normalize(read1) <==> p in Normalize(read2)
    ensures Triggered(Build(signal, write, read1, None, action, isReceptor).state, available)
            <==> Triggered(Build(signal, write, read2, None, action, isReceptor).state, available)
  {
    var rs1, rs2 := Normalize(read1), Normalize(read2);
    DerivedTriggerFiresOnAnyChange(signal, write, read1, action, isReceptor, available);
    DerivedTriggerFiresOnAnyChange(signal, write, read2, action, isReceptor, available);
    if i :| 0 <= i < |rs1| && ChangedSignal(rs1[i]) in available {
      assert rs1[i] in rs2;
      var j :| 0 <= j < |rs2| && rs2[j] == rs1[i];
      assert ChangedSignal(rs2[j]) in available;
    }
    if j :| 0 <= j < |rs2| && ChangedSignal(rs2[j]) in available {
      assert rs2[j] in rs1;
      var i :| 0 <= i < |rs1| && rs1[i] == rs2[j];
      assert ChangedSignal(rs1[i]) in available;
    }
  }

  /** An explicit condition is stored unchanged, whatever `read` holds. */
  lemma ExplicitConditionIndependentOfReads<C, A>(cond: Constraint, read1: PropsArg, read2: PropsArg,
                                                  signal: SignalArg, write: PropsArg,
                                                  action: Action<C, A>, isReceptor: bool)
    ensures Build(signal, write, read1, Some(cond), action, isReceptor).state.constraint == Some(cond)
    ensures Build(signal, write, read1, Some(cond), action, isReceptor).state.constraint
            == Build(signal, write, read2, Some(cond), action, isReceptor).state.constraint
  {
  }

  /** With no condition and an empty read tuple there is no trigger, so no signals satisfy it. */
  lemma NoReadsNoConditionNeverTriggers<C, A>(signal: SignalArg, write: PropsArg,
                                              action: Action<C, A>, isReceptor: bool,
                                              available: set<string>)
    ensures Build(signal, write, Many([]), None, action, isReceptor).state.constraint.None?
    ensures !Triggered(Build(signal, write, Many([]), None, action, isReceptor).state, available)
  {
  }

  /**
    `read=""` warns (the raw length is 0) and yet, once normalised to
    `("",)`, gets a trigger on the signal ":changed".
  */
  lemma EmptyStringReadWarnsButHasTrigger<C, A>(signal: SignalArg, write: PropsArg, action: Action<C, A>)
    ensures Build(signal, write, One(""), None, action).warned
    ensures Build(signal, write, One(""), None, action).state.readProps == [""]
    ensures Build(signal, write, One(""), None, action).state.constraint
            == Some(Disjunct([Conjunct([SignalRef(":changed")])]))
  {
    var st := Build(signal, write, One(""), None, action).state;
    assert ChangedSignal("") == ":changed";
    assert st.constraint.value.items == [ChangedConjunct("")];
  }

  /**
    A warned state has a trigger after all exactly when its `read` was the
    empty string: the only case where the warning's claim is wrong.
  */
  lemma WarnedWithTriggerIffEmptyStringRead<C, A>(signal: SignalArg, write: PropsArg, read: PropsArg,
                                                  cond: Option<Constraint>, action: Action<C, A>,
                                                  isReceptor: bool)
    ensures var b := Build(signal, write, read, cond, action, isReceptor);
            b.warned && b.state.constraint.Some?
            <==> read == One("") && cond.None? && !isReceptor
  {
    if read.One? && RawLength(read) == 0 {
      assert read.text == "";
    }
  }

  /** Apart from `read=""`, a warned state can never be triggered. */
  lemma WarnedStateNeverTriggers<C, A>(signal: SignalArg, write: PropsArg, read: PropsArg,
                                       cond: Option<Constraint>, action: Action<C, A>,
                                       isReceptor: bool, available: set<string>)
    requires Build(signal, write, read, cond, action, isReceptor).warned
    requires read != One("")
    ensures !Triggered(Build(signal, write, read, cond, action, isReceptor).state, available)
  {
    WarnedWithTriggerIffEmptyStringRead(signal, write, read, cond, action, isReceptor);
  }

  /** A non-receptor state that does not warn always has a trigger. */
  lemma UnwarnedStateHasTrigger<C, A>(signal: SignalArg, write: PropsArg, read: PropsArg,
                                      cond: Option<Constraint>, action: Action<C, A>)
    requires !Build(signal, write, read, cond, action, false).warned
    ensures Build(signal, write, read, cond, action, false).state.constraint.Some?
  {
  }

  /** `signal_name` is the module name, a colon and the signal's name, for any module name. */
  lemma SignalNameQualifies<C, A>(st: State<C, A>, moduleName: string, n: string)
    requires st.signal == Signal(n)
    ensures SignalName(st.(moduleName := moduleName)) == Success(moduleName + ":" + n)
  {
    var r := SignalName(st.(moduleName := moduleName));
    assert r.value == r.value[..|moduleName|] + [r.value[|moduleName|]] + r.value[|moduleName| + 1..];
  }

  /** A freshly built state is in no module yet, so its signal name starts with the colon. */
  lemma FreshSignalName<C, A>(n: string, write: PropsArg, read: PropsArg, cond: Option<Constraint>,
                              action: Action<C, A>, isReceptor: bool)
    ensures SignalName(Build(Signal(n), write, read, cond, action, isReceptor).state) == Success(":" + n)
  {
    var st := Build(Signal(n), write, read, cond, action, isReceptor).state;
    SignalNameQualifies(st, "", n);
    assert st.(moduleName := "") == st;
    assert "" + ":" + n == ":" + n;
  }

  /** The same signal registered in two different modules gets two different qualified names. */
  lemma SignalNameSeparatesModules<C, A>(st: State<C, A>, m1: string, m2: string)
    requires st.signal.Signal?
    requires m1 != m2
    ensures SignalName(st.(moduleName := m1)) != SignalName(st.(moduleName := m2))
  {
  }

  /** Calling a built state returns exactly what its action returns. */
  lemma InvokeForwardsToAction<C, A>(signal: SignalArg, write: PropsArg, read: PropsArg,
                                     cond: Option<Constraint>, action: Action<C, A>,
                                     isReceptor: bool, context: C, args: A)
    ensures Invoke(Build(signal, write, read, cond, action, isReceptor).state, context, args)
            == action.run(context, args)
  {
  }

  /**
    Calling a state depends on its action alone: two states with the same
    action, whatever their name, signal, properties, trigger or module,
    return the same result for the same context and arguments.
  */
  lemma InvokeIgnoresDeclaration<C, A>(st1: State<C, A>, st2: State<C, A>, context: C, args: A)
    requires st1.action == st2.action
    ensures Invoke(st1, context, args) == Invoke(st2, context, args)
  {
  }

  /** A decorated state that reads nothing and has no condition always warns and has no trigger. */
  lemma DecoratorWithoutReadsWarns<C(!new), A(!new)>(args: StateArgs, action: Action<C, A>)
    requires args.read == Many([]) && args.cond.None?
    ensures StateDecorator(args)(action).warned
    ensures StateDecorator(args)(action).state.constraint.None?
  {
  }

  /**
    With every default in place the decorator warns, keeps no properties, and
    its signal is the plain string "", which has no `signalname`.
  */
  lemma DecoratorDefaults<C(!new), A(!new)>(action: Action<C, A>)
    ensures StateDecorator(DefaultArgs)(action).warned
    ensures StateDecorator(DefaultArgs)(action).state.readProps == []
    ensures StateDecorator(DefaultArgs)(action).state.writeProps == []
    ensures SignalName(StateDecorator(DefaultArgs)(action).state) == Failure(AttributeError("signalname"))
  {
  }
}
