/**
  Trigger conditions of a state: a tree of signal references combined by
  conjunction and disjunction. Only the three constructors used by the State
  builder are modelled (`s`, `Conjunct`, `Disjunct`); their meaning as a
  disjunctive-normal-form condition is given by `Holds`.
*/
module Constraints {
  import opened Wrappers

  datatype Constraint =
    | SignalRef(name: string)            // s("<name>")
    | Conjunct(items: seq<Constraint>)   // all items must hold
    | Disjunct(items: seq<Constraint>)   // at least one item must hold

  /** The suffix of the signal a property raises when its value changes. */
  const ChangedSuffix: string := ":changed"

  /** The name of the changed-signal of property `prop`: "<prop>:changed". */
  function ChangedSignal(prop: string): (sig: string)
    ensures |sig| == |prop| + |ChangedSuffix|
    ensures sig[..|prop|] == prop && sig[|prop|..] == ChangedSuffix
  {
    prop + ChangedSuffix
  }

  /** The property whose changed-signal `sig` is, if `sig` is one. */
  function PropertyOfChanged(sig: string): (r: Option<string>)
    ensures r.Some? ==> sig == ChangedSignal(r.value)
    ensures r.None? ==> forall p :: sig != ChangedSignal(p)
  {
    var n := |ChangedSuffix|;
    if |sig| >= n && sig[|sig| - n..] == ChangedSuffix then
      var p := sig[..|sig| - n];
      assert sig == p + ChangedSuffix;
      Some(p)
    else
      None
  }

  /**
    Whether condition `c` is satisfied when the signals named in `available`
    are present: a reference needs its signal, a conjunction needs every
    item, a disjunction needs at least one item.
  */
  predicate Holds(c: Constraint, available: set<string>)
    decreases c
  {
    match c
    case SignalRef(n) => n in available
    case Conjunct(cs) => forall k :: 0 <= k < |cs| ==> Holds(cs[k], available)
    case Disjunct(cs) => exists k :: 0 <= k < |cs| && Holds(cs[k], available)
  }

  /** The single-reference conjunction waiting for property `prop` to change. */
  function ChangedConjunct(prop: string): Constraint
  {
    Conjunct([SignalRef(ChangedSignal(prop))])
  }

  /**
    One changed-conjunct per property, in the order the properties are given:
    the list the builder ORs together when it derives a trigger.
  */
  function ChangedConjuncts(props: seq<string>): (cs: seq<Constraint>)
    ensures |cs| == |props|
    ensures forall i :: 0 <= i < |props| ==> cs[i] == ChangedConjunct(props[i])
  {
    if props == [] then []
    else [ChangedConjunct(props[0])] + ChangedConjuncts(props[1..])
  }

  /**
    The declarative shape of a derived trigger: `c` is a disjunction with
    exactly one item per property of `props`, in order, each item the
    conjunction of the single reference "<p>:changed".
  */
  ghost predicate IsChangedDisjunction(c: Constraint, props: seq<string>)
  {
    && c.Disjunct?
    && |c.items| == |props|
    && forall i :: 0 <= i < |props| ==> c.items[i] == ChangedConjunct(props[i])
  }

  /**
    Reads back the properties of a list of changed-conjuncts; `None` when some
    item is not a single-reference conjunction on a changed-signal.
  */
  function ChangedPropsOf(cs: seq<Constraint>): (r: Option<seq<string>>)
    ensures r.Some? ==> |r.value| == |cs|
    ensures r.Some? ==> forall i :: 0 <= i < |cs| ==> cs[i] == ChangedConjunct(r.value[i])
    ensures r.None? ==> exists i :: 0 <= i < |cs| && !IsChangedConjunct(cs[i])
  {
    if cs == [] then Some([])
    else
      var head := ConjunctProperty(cs[0]);
      var tail := ChangedPropsOf(cs[1..]);
      if head.None? then None
      else if tail.None? then
        assert exists i :: 0 <= i < |cs| && !IsChangedConjunct(cs[i]) by {
          var j :| 0 <= j < |cs| - 1 && !IsChangedConjunct(cs[1..][j]);
          assert cs[1..][j] == cs[j + 1];
        }
        None
      else Some([head.value] + tail.value)
  }

  /** Whether `c` is the changed-conjunct of some property. */
  ghost predicate IsChangedConjunct(c: Constraint)
  {
    exists p :: c == ChangedConjunct(p)
  }

  /** The property `c` waits for, if `c` is a changed-conjunct. */
  function ConjunctProperty(c: Constraint): (r: Option<string>)
    ensures r.Some? ==> c == ChangedConjunct(r.value)
    ensures r.None? ==> !IsChangedConjunct(c)
  {
    if c.Conjunct? && |c.items| == 1 && c.items[0].SignalRef? then
      var p := PropertyOfChanged(c.items[0].name);
      if p.Some? then
        assert c.items == [SignalRef(ChangedSignal(p.value))];
        p
      else None
    else None
  }

  /** Reads back the properties of a derived trigger. */
  function ReadPropsOf(c: Constraint): (r: Option<seq<string>>)
    ensures r.Some? ==> IsChangedDisjunction(c, r.value)
  {
    if c.Disjunct? then ChangedPropsOf(c.items) else None
  }
}
