/** The observation gate: observations of a window are buffered until it is registered, then handed over.
    Any number of callbacks race with the one activation; each lock section and each application is a step. */
module Gate {

  /** Observations are numbered in the order in which they reach the gate.

      - `active`, `pending`: the gate behind its lock;
      - `passing`: observations whose callback saw the gate active and released it;
      - `draining`: what the activation took and has not yet applied;
      - `applied`: what the manager was given, in order. */
  datatype State = State(arrived: nat, active: bool, pending: seq<nat>, passing: set<nat>, draining: seq<nat>,
                         applied: seq<nat>)

  const START := State(0, false, [], {}, [], [])

  datatype Action =
    | Arrive            // the lock section of record_or_buffer
    | Deliver(id: nat)  // its application, when it found the gate active
    | Activate          // the lock section of activate_observations
    | Drain             // one turn of its loop

  ghost predicate Enabled(s: State, a: Action) {
    match a
    case Arrive => true
    case Deliver(id) => id in s.passing
    case Activate => !s.active
    case Drain => s.draining != []
  }

  function Step(s: State, a: Action): State
    requires a.Drain? ==> s.draining != []
  {
    match a
    case Arrive =>
      if s.active then s.(arrived := s.arrived + 1, passing := s.passing + {s.arrived})
      else s.(arrived := s.arrived + 1, pending := s.pending + [s.arrived])
    case Deliver(id) => s.(passing := s.passing - {id}, applied := s.applied + [id])
    case Activate => s.(active := true, pending := [], draining := s.pending)
    case Drain => s.(draining := s.draining[1..], applied := s.applied + [s.draining[0]])
  }

  ghost predicate Run(states: seq<State>, actions: seq<Action>) {
    && |states| == |actions| + 1 && states[0] == START
    && forall i :: 0 <= i < |actions| ==> Enabled(states[i], actions[i]) && states[i + 1] == Step(states[i], actions[i])
  }

  // ---- the class ----

  class ObservationGate<T(0)> {
    var active: bool
    var pending: seq<T>

    constructor ()
      ensures !active && pending == []
      ensures Shows(START, [])
    {
      active, pending := false, [];
    }

    /** The gate is that of `s` when `log` lists the observations that reached it, by number. */
    ghost predicate Shows(s: State, log: seq<T>)
      reads this
    {
      s.arrived == |log| && active == s.active && Numbered(s.pending, pending, log)
    }

    /** The lock section of `record_or_buffer`: whether the caller applies the observation itself. */
    method RecordOrBuffer(observation: T, ghost s: State, ghost log: seq<T>) returns (pass: bool)
      requires Shows(s, log)
      modifies this
      ensures pass == old(active) && active == old(active)
      ensures pending == if old(active) then old(pending) else old(pending) + [observation]
      ensures Shows(Step(s, Arrive), log + [observation])
      ensures Step(s, Arrive).passing == if pass then s.passing + {s.arrived} else s.passing
    {
      if !active {
        pending := pending + [observation];
        return false;
      }
      pass := true;
    }

    /** The lock section of `activate_observations`: what the caller is to apply. */
    method Activate(ghost s: State, ghost log: seq<T>) returns (taken: seq<T>)
      requires Shows(s, log)
      modifies this
      ensures active && pending == [] && taken == old(pending)
      ensures Shows(Step(s, Action.Activate), log) && Numbered(Step(s, Action.Activate).draining, taken, log)
    {
      active := true;
      taken := pending;
      pending := [];
    }
  }

  /** `values` are the observations numbered `ids`. */
  ghost predicate Numbered<T>(ids: seq<nat>, values: seq<T>, log: seq<T>) {
    |values| == |ids| && forall i :: 0 <= i < |ids| ==> ids[i] < |log| && values[i] == log[ids[i]]
  }

  // ---- exactly once ----

  /** The numbers from `a` up to `b`. */
  function Range(a: nat, b: nat): (r: seq<nat>)
    requires a <= b
    ensures |r| == b - a && forall i :: 0 <= i < |r| ==> r[i] == a + i
  {
    seq(b - a, i requires 0 <= i => a + i)
  }

  /** The members of `s` below `bound`, in order. */
  function Below(s: seq<nat>, bound: nat): seq<nat> {
    if s == [] then []
    else Below(s[..|s| - 1], bound) + (if s[|s| - 1] < bound then [s[|s| - 1]] else [])
  }

  ghost predicate NoRepeats(s: seq<nat>) { forall i, j :: 0 <= i < j < |s| ==> s[i] != s[j] }

  /** With `buffered` observations buffered before the activation, of which `drained` are already applied:
      those in the buffer or waiting to be drained are the later ones in order, and every other observation
      is on its way through or applied, not both. */
  ghost predicate Inv(s: State, buffered: nat, drained: nat) {
    && drained <= buffered <= s.arrived
    && (if s.active then s.pending == [] && s.draining == Range(drained, buffered)
        else buffered == s.arrived && drained == 0 && s.pending == Range(0, buffered) && s.draining == []
             && s.applied == [] && s.passing == {})
    && Below(s.applied, buffered) == Range(0, drained)
    && NoRepeats(s.applied)
    && (forall id :: id in s.passing ==> buffered <= id < s.arrived && id !in s.applied)
    && (forall id :: id in s.applied ==> id < drained || buffered <= id < s.arrived)
    && (forall id :: buffered <= id < s.arrived ==> id in s.passing || id in s.applied)
  }

  lemma BelowOneMore(s: seq<nat>, id: nat, bound: nat)
    ensures Below(s + [id], bound) == Below(s, bound) + (if id < bound then [id] else [])
  {
    assert (s + [id])[..|s|] == s;
  }

  lemma {:induction false} BelowMember(s: seq<nat>, bound: nat, id: nat)
    ensures id in Below(s, bound) <==> id in s && id < bound
  {
    if s != [] {
      BelowMember(s[..|s| - 1], bound, id);
      assert s == s[..|s| - 1] + [s[|s| - 1]];
    }
  }

  lemma NoRepeatsOneMore(s: seq<nat>, id: nat)
    requires NoRepeats(s) && id !in s
    ensures NoRepeats(s + [id])
  {
  }

  lemma DrainKeepsInv(s: State, buffered: nat, drained: nat)
    requires Inv(s, buffered, drained) && s.draining != []
    ensures Inv(Step(s, Drain), buffered, drained + 1)
  {
    assert s.draining[0] == drained && drained !in s.applied;
    NoRepeatsOneMore(s.applied, drained);
    BelowOneMore(s.applied, drained, buffered);
    assert s.draining[1..] == Range(drained + 1, buffered);
    assert Range(0, drained) + [drained] == Range(0, drained + 1);
  }

  lemma DeliverKeepsInv(s: State, id: nat, buffered: nat, drained: nat)
    requires Inv(s, buffered, drained) && id in s.passing
    ensures Inv(Step(s, Deliver(id)), buffered, drained)
  {
    NoRepeatsOneMore(s.applied, id);
    BelowOneMore(s.applied, id, buffered);
  }

  lemma ArriveKeepsInv(s: State, buffered: nat, drained: nat)
    requires Inv(s, buffered, drained)
    ensures Inv(Step(s, Arrive), if s.active then buffered else buffered + 1, drained)
  {
    if !s.active {
      assert s.pending + [s.arrived] == Range(0, buffered + 1);
    }
  }

  lemma StepKeepsInv(s: State, a: Action, buffered: nat, drained: nat)
    requires Inv(s, buffered, drained) && Enabled(s, a)
    ensures Inv(Step(s, a), if a.Arrive? && !s.active then buffered + 1 else buffered,
                if a.Drain? then drained + 1 else drained)
  {
    match a
    case Drain => DrainKeepsInv(s, buffered, drained);
    case Deliver(id) => DeliverKeepsInv(s, id, buffered, drained);
    case Arrive => ArriveKeepsInv(s, buffered, drained);
    case Activate =>
  }

  lemma {:induction false} Reachable(states: seq<State>, actions: seq<Action>, i: nat)
    returns (buffered: nat, drained: nat)
    requires Run(states, actions) && i < |states|
    ensures Inv(states[i], buffered, drained)
  {
    if i == 0 {
      buffered, drained := 0, 0;
    } else {
      buffered, drained := Reachable(states, actions, i - 1);
      StepKeepsInv(states[i - 1], actions[i - 1], buffered, drained);
      if actions[i - 1].Drain? {
        drained := drained + 1;
      } else if actions[i - 1].Arrive? && !states[i - 1].active {
        buffered := buffered + 1;
      }
    }
  }

  /** Where an observation is. */
  function Places(s: State, id: nat): nat {
    (if id in s.pending then 1 else 0) + (if id in s.passing then 1 else 0) + (if id in s.draining then 1 else 0)
    + (if id in s.applied then 1 else 0)
  }

  /** In every interleaving each observation that reached the gate is in exactly one place, and is applied at
      most once; before the activation none is applied. */
  lemma ExactlyOnePlace(states: seq<State>, actions: seq<Action>, i: nat)
    requires Run(states, actions) && i < |states|
    ensures forall id :: 0 <= id < states[i].arrived ==> Places(states[i], id) == 1
    ensures forall id :: id in states[i].applied ==> id < states[i].arrived
    ensures NoRepeats(states[i].applied)
    ensures !states[i].active ==> states[i].applied == []
  {
    var buffered, drained := Reachable(states, actions, i);
    var s := states[i];
    forall id | 0 <= id < s.arrived
      ensures Places(s, id) == 1
    {
      assert id < drained ==> Range(0, drained)[id] == id;
      BelowMember(s.applied, buffered, id);
      if s.active {
        assert drained <= id < buffered ==> s.draining[id - drained] == id;
      } else {
        assert s.pending[id] == id;
      }
    }
  }

  /** When the activation is done and no callback is under way, each observation was applied exactly once. */
  lemma NothingLost(states: seq<State>, actions: seq<Action>, i: nat)
    requires Run(states, actions) && i < |states|
    requires states[i].active && states[i].draining == [] && states[i].passing == {}
    ensures forall id :: id in states[i].applied <==> 0 <= id < states[i].arrived
    ensures NoRepeats(states[i].applied)
  {
    var buffered, drained := Reachable(states, actions, i);
    var s := states[i];
    forall id | 0 <= id < s.arrived
      ensures id in s.applied
    {
      ExactlyOnePlace(states, actions, i);
      assert Places(s, id) == 1;
    }
  }

  /** The observations buffered before the activation are applied in the order they arrived in: those
      applied so far are the first ones, each before every later one. */
  lemma BufferedInOrder(states: seq<State>, actions: seq<Action>, i: nat) returns (buffered: nat, drained: nat)
    requires Run(states, actions) && i < |states|
    ensures drained <= buffered && Below(states[i].applied, buffered) == Range(0, drained)
    ensures states[i].active ==> states[i].draining == Range(drained, buffered)
    ensures !states[i].active ==> buffered == states[i].arrived
  {
    buffered, drained := Reachable(states, actions, i);
  }

  /** Across the activation there is no such order: a later observation can pass an earlier buffered one. */
  lemma LaterMayOvertake() returns (states: seq<State>, actions: seq<Action>)
    ensures Run(states, actions) && states[|actions|].applied == [1, 0]
  {
    actions := [Arrive, Activate, Arrive, Deliver(1), Drain];
    var s1 := Step(START, Arrive);
    var s2 := Step(s1, Activate);
    var s3 := Step(s2, Arrive);
    var s4 := Step(s3, Deliver(1));
    var s5 := Step(s4, Drain);
    states := [START, s1, s2, s3, s4, s5];
    assert s2.draining == [0] && s3.passing == {1};
  }

  // ---- when everything is applied in order of arrival ----

  /** What was applied so far is what arrived first, in that order. */
  ghost predicate InOrder(s: State) { s.applied == Range(0, |s.applied|) }

  /** A callback applies its observation only when the buffer is drained and no earlier one is on its way. */
  ghost predicate InTurn(s: State, a: Action) {
    a.Deliver? ==> s.draining == [] && forall p :: p in s.passing ==> a.id <= p
  }

  lemma InOrderMember(s: State, id: nat)
    requires InOrder(s)
    ensures id in s.applied <==> id < |s.applied|
  {
    if id < |s.applied| { assert s.applied[id] == id; }
  }

  lemma OneMoreInOrder(s: State, id: nat)
    requires InOrder(s)
    ensures s.applied + [id] == Range(0, |s.applied| + 1) <==> id == |s.applied|
  {
    assert id == |s.applied| ==> s.applied + [id] == Range(0, |s.applied| + 1);
    assert (s.applied + [id])[|s.applied|] == id;
  }

  /** All drained observations are applied, so at least that many are. */
  lemma DrainedAreApplied(s: State, buffered: nat, drained: nat)
    requires Inv(s, buffered, drained) && InOrder(s)
    ensures drained <= |s.applied| && (drained < buffered ==> drained == |s.applied|)
  {
    if drained > 0 {
      assert Range(0, drained)[drained - 1] == drained - 1;
      BelowMember(s.applied, buffered, drained - 1);
      InOrderMember(s, drained - 1);
    }
    InOrderMember(s, drained);
  }

  /** One step from an ordered state keeps the order exactly when it is taken in turn. */
  lemma InTurnKeepsOrder(s: State, a: Action, buffered: nat, drained: nat)
    requires Inv(s, buffered, drained) && Enabled(s, a) && InOrder(s)
    ensures InOrder(Step(s, a)) <==> InTurn(s, a)
  {
    DrainedAreApplied(s, buffered, drained);
    match a
    case Drain =>
      assert s.draining[0] == drained && |s.draining| == buffered - drained;
      OneMoreInOrder(s, drained);
    case Deliver(id) =>
      OneMoreInOrder(s, id);
      var n := |s.applied|;
      assert |s.draining| == buffered - drained;
      InOrderMember(s, n);
      InOrderMember(s, id);
      if InTurn(s, a) {
        assert id == n;
      }
      if id == n {
        forall p | p in s.passing
          ensures id <= p
        {
          InOrderMember(s, p);
        }
      }
    case _ =>
  }

  lemma OrderedBefore(s: State, a: Action)
    requires Enabled(s, a) && InOrder(Step(s, a))
    ensures InOrder(s)
  {
    var t := Step(s, a).applied;
    assert s.applied == t[..|s.applied|];
    assert Range(0, |t|)[..|s.applied|] == Range(0, |s.applied|);
  }

  /** In every run, everything is applied in the order of arrival if and only if every callback took its turn. */
  lemma {:induction false} OrderIff(states: seq<State>, actions: seq<Action>, i: nat)
    requires Run(states, actions) && i < |states|
    ensures InOrder(states[i]) <==> forall k :: 0 <= k < i ==> InTurn(states[k], actions[k])
  {
    if i > 0 {
      var s, a := states[i - 1], actions[i - 1];
      OrderIff(states, actions, i - 1);
      var buffered, drained := Reachable(states, actions, i - 1);
      if InOrder(s) {
        InTurnKeepsOrder(s, a, buffered, drained);
      }
      if InOrder(states[i]) {
        OrderedBefore(s, a);
      }
    }
  }

  /** At most one observation is under way, and none while the buffer drains. */
  ghost predicate Prompt(s: State) {
    s.passing == {} || (s.active && s.draining == [] && exists id :: s.passing == {id})
  }

  lemma PromptStep(s: State, a: Action)
    requires Enabled(s, a) && Prompt(s)
    requires a.Arrive? && s.active ==> s.passing == {} && s.draining == []
    ensures Prompt(Step(s, a)) && InTurn(s, a)
  {
    match a
    case Deliver(id) =>
      var only :| s.passing == {only};
      assert id == only && s.passing - {id} == {};
    case Arrive => if s.active { assert s.passing + {s.arrived} == {s.arrived}; }
    case _ =>
  }

  lemma {:induction false} PromptRun(states: seq<State>, actions: seq<Action>, i: nat)
    requires Run(states, actions) && i < |states|
    requires forall k :: 0 <= k < |actions| && actions[k].Arrive? && states[k].active ==>
               states[k].passing == {} && states[k].draining == []
    ensures Prompt(states[i]) && forall k :: 0 <= k < i ==> InTurn(states[k], actions[k])
  {
    if i > 0 {
      PromptRun(states, actions, i - 1);
      PromptStep(states[i - 1], actions[i - 1]);
    }
  }

  /** So it is when no observation that finds the gate active comes while an earlier one is on its way. */
  lemma PromptArrivalsKeepOrder(states: seq<State>, actions: seq<Action>, i: nat)
    requires Run(states, actions) && i < |states|
    requires forall k :: 0 <= k < |actions| && actions[k].Arrive? && states[k].active ==>
               states[k].passing == {} && states[k].draining == []
    ensures states[i].applied == Range(0, |states[i].applied|)
  {
    PromptRun(states, actions, i);
    OrderIff(states, actions, i);
  }
}
