# ravestate State descriptor — Dafny model

This project models the State descriptor builder of ravestate, the
rule-activation engine of the Roboy conversational agent
(`modules/ravestate/state.py`). A state is declared with a `signal` it may
emit, the properties it may `write` and `read`, an optional trigger `cond`,
an `action`, and an `is_receptor` flag. Construction turns that declaration
into an immutable `State` record and may log the warning that the state
"will never be activated". The model is a pure function from the
declaration to the record plus a boolean saying whether the warning is
logged.

What construction does, as modelled:

- A bare string given as `read` or `write` becomes a one-element tuple. A
  tuple is stored as given (`PropsArg = One(text) | Many(items)`).
- The warning is decided on the raw `read`, before it is normalised. It is
  logged exactly when `len(read) == 0`, no condition is given and the state
  is not a receptor. So `read=""` warns, yet after normalisation to `("",)`
  it gets a trigger on the signal `":changed"`.
- With no condition and a non-empty normalised `read`, the trigger is
  derived in disjunctive normal form. It is a `Disjunct` holding one
  `Conjunct` per read property, in read order. Each `Conjunct` holds the
  single reference `s("<p>:changed")`. An explicit condition is stored
  unchanged.
- The state's name is the action's `__name__`. Its module name starts out
  empty. `signal_name()` is `"<module_name>:<signalname>"`.
- Calling the state forwards the context and arguments to the action. The
  action returns nothing (`NoResult`, Python's `None`), `Delete` or `Emit`
  (`ActivationResult`).
- The `state(...)` decorator builds a non-receptor State around the function
  it decorates. Its defaults are `signal=""`, `write=()`, `read=()` and
  `cond=None`.

`signal_name()` reads `self.signal.signalname`. The decorator's default
signal is the plain string `""`, which has no such attribute. The model
therefore gives `signal` two forms (`SignalArg = Text(text) |
Signal(signalname)`), and `SignalName` returns an `AttributeError` failure
for the `Text` form. That is what the code does for a decorated state
declared without a signal.

`constraint.py` is not part of this model. Only its three constructors are
modelled (`SignalRef` for `s`, `Conjunct`, `Disjunct`). Their meaning,
`Constraints.Holds`, is the usual disjunctive-normal-form reading
(`state.py:53` converts triggers to disjunctive normal form): a reference
needs its signal present, a conjunction needs every item, a disjunction
needs one. `ReadPropsOf` reads the read properties back
out of a derived trigger. It serves as the inverse partner of the
derivation.

Files: `wrappers.dfy` (Option, Result), `constraint.dfy` (the constraint
tree, changed-signal names, the derivation and its inverse),
`state.dfy` (the State record, the builder, `signal_name`, `__call__`, the
decorator), `state_lemmas.dfy` (properties relating these members).

## Model

| member | source | states |
|---|---|---|
| Constraints.ChangedSignal | modules/ravestate/state.py:55 | the changed-signal of property `p` is `p` followed by `":changed"`, so it starts with `p` and ends with the suffix |
| Constraints.ChangedConjuncts | modules/ravestate/state.py:55 | one single-reference conjunct per property, same count and same order, item `i` waiting for `props[i]` to change |
| States.RawLength | modules/ravestate/state.py:41 | `len(read)` before normalisation is zero exactly for the empty string and the empty tuple |
| States.Normalize | modules/ravestate/state.py:47-50 | a tuple is kept as given; a bare string becomes the one-element tuple holding it; the result is empty only for the empty tuple, so `""` normalises to a non-empty tuple |
| States.Build | modules/ravestate/state.py:36-62 | the warning flag holds iff raw `read` is empty, no condition is given and the state is no receptor; a string `read`/`write` is stored as a one-element tuple and a tuple as given; an explicit condition is kept; no condition with empty normalised `read` leaves no trigger; otherwise the trigger is the changed-disjunction of the read properties; name and action come from the action; module name is empty |
| States.SignalName | modules/ravestate/state.py:67-68 | succeeds iff the signal has a `signalname`; the result is the module name, a colon and the signal name; a plain-string signal raises `AttributeError("signalname")` |
| States.StateDecorator | modules/ravestate/state.py:71-80 | the decorator applied to an action gives the same construction as the constructor with `is_receptor=False`, and it warns iff `read` is empty and there is no condition |
| StateProperties.ChangedConjunctsRoundTrip | modules/ravestate/state.py:54-55 | reading back the derived list of conjuncts gives exactly the read properties, in order |
| StateProperties.ChangedSignalInjective | modules/ravestate/state.py:55 | two properties with the same changed-signal are the same property |
| StateProperties.DerivedTriggerRecoversReads | modules/ravestate/state.py:47-60 | with no condition and a non-empty normalised `read`, the stored trigger reads back as exactly the normalised read properties |
| StateProperties.DerivedTriggerInjective | modules/ravestate/state.py:54-55 | two declarations without a condition whose normalised reads differ get different triggers (with the ordered containers listed under "## Left out") |
| StateProperties.DerivedTriggerFiresOnAnyChange | modules/ravestate/state.py:52-55 | a derived trigger is satisfied iff the changed-signal of at least one read property is present; no read property needs any other |
| StateProperties.DerivedTriggerDependsOnlyOnReadSet | modules/ravestate/state.py:54-55 | two declarations without a condition whose normalised reads hold the same properties, in any order, get triggers satisfied by exactly the same signal sets |
| StateProperties.ChangedConjunctHolds | modules/ravestate/state.py:55 | a single-reference changed-conjunct holds iff its changed-signal is present |
| StateProperties.ExplicitConditionIndependentOfReads | modules/ravestate/state.py:54-60 | an explicit condition is stored unchanged and does not depend on `read` at all |
| StateProperties.NoReadsNoConditionNeverTriggers | modules/ravestate/state.py:54-60 | with `read=()` and no condition the state has no trigger, so no set of signals triggers it |
| StateProperties.EmptyStringReadWarnsButHasTrigger | modules/ravestate/state.py:41-55 | `read=""` without a condition warns, stores `("",)` and gets the trigger `Disjunct(Conjunct(s(":changed")))` |
| StateProperties.WarnedWithTriggerIffEmptyStringRead | modules/ravestate/state.py:41-60 | a state both warns and has a trigger iff `read` is the empty string, there is no condition and it is no receptor |
| StateProperties.WarnedStateNeverTriggers | modules/ravestate/state.py:41-60 | apart from `read=""`, a state that warns is triggered by no set of signals |
| StateProperties.UnwarnedStateHasTrigger | modules/ravestate/state.py:41-60 | a non-receptor state that does not warn always has a trigger |
| StateProperties.SignalNameQualifies | modules/ravestate/state.py:67-68 | for any module name `m` and signal name `n`, `signal_name()` is `m + ":" + n` |
| StateProperties.FreshSignalName | modules/ravestate/state.py:62-68 | a freshly built state is in no module, so its signal name is `":" + n` |
| StateProperties.SignalNameSeparatesModules | modules/ravestate/state.py:67-68 | the same signal in two different modules gets two different qualified names |
| StateProperties.InvokeForwardsToAction | modules/ravestate/state.py:64-65 | calling a built state returns exactly what its action returns for the same context and arguments |
| StateProperties.InvokeIgnoresDeclaration | modules/ravestate/state.py:64-65 | calling a state depends on its stored action only: two states with the same action give the same result for the same context and arguments, whatever else they declare |
| StateProperties.DecoratorWithoutReadsWarns | modules/ravestate/state.py:71-79 | a decorated state with `read=()` and no condition always warns and has no trigger |
| StateProperties.DecoratorDefaults | modules/ravestate/state.py:71-79 | with all defaults the decorator warns, stores empty read and write tuples, and `signal_name()` raises `AttributeError` |

## Left out

- The Activation interface (`modules/ravestate/iactivation.py`): its methods have no bodies, and the activation, specificity and wipe engine is not part of this model.
- The logging call itself: the warning is the boolean `warned` of a construction.
- Executing the action: the action is an opaque function of the context and the further arguments. Keyword arguments are folded into those arguments.
- A callable without a `__name__`: it passes `callable(action)` but makes `State.__init__` raise `AttributeError` when it reads the name. Every `Action` in the model has a name.
- An action that raises, or that returns a value other than `None`, `Delete` or `Emit`: `__call__` passes either on unchanged, while the model's action is a total function into `ActivationResult`.
- `assert(callable(action))`: an `Action` value is always callable in the model, so the failing assertion cannot arise.
- Python truthiness of a given condition object: `constraint.py` is not part of this model, so a condition is an option and only `None` is falsy.
- `read`/`write` values other than a string or a tuple of strings (for example the property objects some modules pass): their `len` and iteration belong to code that is not part of this model.
- Registering a state into a module, which sets `module_name`: the `Module` class is not part of this model. Lemmas about `signal_name()` quantify over every module name instead.
- Returning a bare `StateActivationResult()` instance from an action: the result is modelled as the closed choice of no result, `Delete` or `Emit`.
- Any normalisation done by the `Disjunct` and `Conjunct` constructors (for example merging repeated read properties): `constraint.py` is not part of this model, so both are plain ordered containers.
