/** Actors and the per-actor action-queue state machine (`Actor.Step`). */
module Actors {
  import opened Wrappers
  import opened Vectors
  import opened Terrains

  datatype ActorActionType = Move | Attack | Grab | Drop | Rotate

  datatype ActorType = Player | Rat

  /**
   * `ActorAction`: a target (a cell for Move, the heading in `target.x` for
   * Rotate), the ticks to wait before the effect, the ticks to wait after it,
   * and whether the effect has been applied.
   */
  datatype ActorAction = ActorAction(target: Vec3, startDelay: int, endDelay: int, kind: ActorActionType, hasBeenPerformed: bool)

  /** `Order`: the FIFO queue of actions an actor is committed to. */
  datatype Order = Order(actions: seq<ActorAction>)

  /** The part of an actor that `Step` changes. */
  datatype ActorState = ActorState(pos: Vec3, dir: int, order: Option<Order>)

  /** The order's head, ready for its effect (its wind-up is over and it has not been applied yet). */
  predicate HeadReady(s: ActorState)
  {
    s.order.Some? && |s.order.value.actions| > 0 &&
    s.order.value.actions[0].startDelay <= 0 && !s.order.value.actions[0].hasBeenPerformed
  }

  /**
   * One call of `Actor.Step`, given the occupied cell indices (the keys of the
   * occupancy dictionary): the new state and whether the effect was applied.
   */
  function Tick(s: ActorState, occupied: set<int>, t: Terrain): (ActorState, bool)
  {
    if s.order.None? then (s, false)
    else
      var acts := s.order.value.actions;
      if acts == [] then (s.(order := None), false)
      else
        var first := acts[0];
        if first.startDelay > 0 then
          (s.(order := Some(Order([first.(startDelay := first.startDelay - 1)] + acts[1..]))), false)
        else
          var performing := !first.hasBeenPerformed;
          var blocked := performing && first.kind == Move && t.GetIdxOf(first.target) in occupied;
          var pos' := if performing && first.kind == Move && !blocked then first.target else s.pos;
          var dir' := if performing && first.kind == Rotate then first.target.x else s.dir;
          var done := first.(hasBeenPerformed := true);
          var rest :=
            if blocked then []
            else if done.endDelay > 0 then [done.(endDelay := done.endDelay - 1)] + acts[1..]
            else acts[1..];
          (ActorState(pos', dir', if rest == [] then None else Some(Order(rest))), performing)
  }

  /** While the head is winding up, a call only counts its delay down. */
  lemma PendingTick(s: ActorState, occupied: set<int>, t: Terrain)
    requires s.order.Some? && |s.order.value.actions| > 0 && s.order.value.actions[0].startDelay > 0
    ensures var (s', changed) := Tick(s, occupied, t);
      !changed && s'.pos == s.pos && s'.dir == s.dir && s'.order.Some? &&
      s'.order.value.actions[0].startDelay == s.order.value.actions[0].startDelay - 1 &&
      s'.order.value.actions[1..] == s.order.value.actions[1..]
  {
  }

  /**
   * A Move onto an occupied cell drops the whole order and leaves the actor
   * where it is; onto a free cell it puts the actor on the target. Either way
   * the call reports a change.
   */
  lemma MoveTick(s: ActorState, occupied: set<int>, t: Terrain)
    requires HeadReady(s) && s.order.value.actions[0].kind == Move
    ensures var (s', changed) := Tick(s, occupied, t);
      var target := s.order.value.actions[0].target;
      changed && s'.dir == s.dir &&
      (t.GetIdxOf(target) in occupied ==> s'.order == None && s'.pos == s.pos) &&
      (t.GetIdxOf(target) !in occupied ==> s'.pos == target)
  {
  }

  /** A Rotate sets the heading to `target.x`; Attack, Grab and Drop change nothing but still report a change. */
  lemma OtherActionTick(s: ActorState, occupied: set<int>, t: Terrain)
    requires HeadReady(s) && s.order.value.actions[0].kind != Move
    ensures var (s', changed) := Tick(s, occupied, t);
      var a := s.order.value.actions[0];
      changed && s'.pos == s.pos &&
      s'.dir == (if a.kind == Rotate then a.target.x else s.dir)
  {
  }

  /** The actor only ever changes cell by a Move onto a cell that was free. */
  lemma TickMovesOnlyToFreeCells(s: ActorState, occupied: set<int>, t: Terrain)
    ensures var (s', changed) := Tick(s, occupied, t);
      s'.pos != s.pos ==>
        changed && HeadReady(s) && s.order.value.actions[0].kind == Move &&
        s'.pos == s.order.value.actions[0].target && t.GetIdxOf(s'.pos) !in occupied
  {
  }

  /** `n` consecutive calls of `Step` against the same occupancy. */
  function Run(s: ActorState, occupied: set<int>, t: Terrain, n: nat): ActorState
    decreases n
  {
    if n == 0 then s else Tick(Run(s, occupied, t, n - 1), occupied, t).0
  }

  /** What call number `k + 1` returns. */
  function ChangedOnCall(s: ActorState, occupied: set<int>, t: Terrain, k: nat): bool
  {
    Tick(Run(s, occupied, t, k), occupied, t).1
  }

  /** An order of the single fresh action `a`, whose effect is not blocked. */
  predicate SingleUnblocked(s: ActorState, a: ActorAction, occupied: set<int>, t: Terrain)
  {
    s.order == Some(Order([a])) && a.startDelay >= 0 && a.endDelay >= 0 && !a.hasBeenPerformed &&
    !(a.kind == Move && t.GetIdxOf(a.target) in occupied)
  }

  /** Where such an actor is after `k` calls: counting down, applied and cooling down, then idle. */
  function Lifecycle(s: ActorState, a: ActorAction, k: nat): ActorState
  {
    var p, q := a.startDelay, a.endDelay;
    var pos' := if a.kind == Move then a.target else s.pos;
    var dir' := if a.kind == Rotate then a.target.x else s.dir;
    if k <= p then s.(order := Some(Order([a.(startDelay := p - k)])))
    else if k <= p + q then
      ActorState(pos', dir', Some(Order([a.(startDelay := 0, hasBeenPerformed := true, endDelay := p + q - k)])))
    else ActorState(pos', dir', None)
  }

  lemma TickLifecycle(s: ActorState, a: ActorAction, occupied: set<int>, t: Terrain, k: nat)
    requires SingleUnblocked(s, a, occupied, t) && k < a.startDelay + a.endDelay + 1
    ensures Tick(Lifecycle(s, a, k), occupied, t) == (Lifecycle(s, a, k + 1), k == a.startDelay)
  {
    var p, q := a.startDelay, a.endDelay;
    var st := Lifecycle(s, a, k);
    if k < p {
      var h := a.(startDelay := p - k);
      assert st.order.value.actions == [h];
      assert [h.(startDelay := h.startDelay - 1)] + [h][1..] == [a.(startDelay := p - (k + 1))];
    } else {
      var h := if k == p then a.(startDelay := 0) else a.(startDelay := 0, hasBeenPerformed := true, endDelay := p + q - k);
      assert st.order.value.actions == [h];
      var d := h.(hasBeenPerformed := true);
      var c := a.(startDelay := 0, hasBeenPerformed := true, endDelay := p + q - (k + 1));
      if d.endDelay > 0 {
        assert d.(endDelay := d.endDelay - 1) == c;
        assert [d.(endDelay := d.endDelay - 1)] + [h][1..] == [c];
        assert Tick(st, occupied, t).0.order == Some(Order([c]));
      } else {
        assert [h][1..] == [];
        assert Tick(st, occupied, t).0.order == None;
      }
    }
  }

  lemma {:induction false} RunIsLifecycle(s: ActorState, a: ActorAction, occupied: set<int>, t: Terrain, k: nat)
    requires SingleUnblocked(s, a, occupied, t) && k <= a.startDelay + a.endDelay + 1
    ensures Run(s, occupied, t, k) == Lifecycle(s, a, k)
    ensures k < a.startDelay + a.endDelay + 1 ==> ChangedOnCall(s, occupied, t, k) == (k == a.startDelay)
  {
    if k > 0 {
      RunIsLifecycle(s, a, occupied, t, k - 1);
      TickLifecycle(s, a, occupied, t, k - 1);
    }
    if k < a.startDelay + a.endDelay + 1 {
      TickLifecycle(s, a, occupied, t, k);
    }
  }

  /**
   * An order of one action with wind-up `p` and recovery `q` is retired by
   * exactly `p + q + 1` calls of `Step`; only call `p + 1` applies the effect
   * and reports a change, and every other call leaves position and heading alone.
   */
  lemma {:induction false} ActionLifecycle(s: ActorState, a: ActorAction, occupied: set<int>, t: Terrain)
    requires SingleUnblocked(s, a, occupied, t)
    ensures var n := a.startDelay + a.endDelay + 1;
      Run(s, occupied, t, n).order == None &&
      (forall k :: 0 <= k < n ==> Run(s, occupied, t, k).order.Some?) &&
      (forall k :: 0 <= k < n ==> (ChangedOnCall(s, occupied, t, k) <==> k == a.startDelay)) &&
      (forall k :: 0 <= k < n && k != a.startDelay ==>
         Run(s, occupied, t, k + 1).pos == Run(s, occupied, t, k).pos &&
         Run(s, occupied, t, k + 1).dir == Run(s, occupied, t, k).dir) &&
      Run(s, occupied, t, a.startDelay + 1).pos == (if a.kind == Move then a.target else s.pos) &&
      Run(s, occupied, t, a.startDelay + 1).dir == (if a.kind == Rotate then a.target.x else s.dir)
  {
    var n := a.startDelay + a.endDelay + 1;
    RunIsLifecycle(s, a, occupied, t, n);
    RunIsLifecycle(s, a, occupied, t, a.startDelay + 1);
    forall k | 0 <= k < n
      ensures Run(s, occupied, t, k).order.Some?
      ensures ChangedOnCall(s, occupied, t, k) <==> k == a.startDelay
      ensures k != a.startDelay ==>
         Run(s, occupied, t, k + 1).pos == Run(s, occupied, t, k).pos &&
         Run(s, occupied, t, k + 1).dir == Run(s, occupied, t, k).dir
    {
      RunIsLifecycle(s, a, occupied, t, k);
      RunIsLifecycle(s, a, occupied, t, k + 1);
    }
  }

  /** The states of a list of actors, in list order. */
  function StatesOf(actors: seq<Actor>): (r: seq<ActorState>)
    reads set a | a in actors
    ensures |r| == |actors|
  {
    seq(|actors|, i reads set a | a in actors requires 0 <= i < |actors| => actors[i].State())
  }

  lemma StatesOfAppend(actors: seq<Actor>, a: Actor)
    ensures StatesOf(actors + [a]) == StatesOf(actors) + [a.State()]
  {
    assert forall j :: 0 <= j < |actors| ==> (actors + [a])[j] == actors[j];
  }

  lemma StatesOfSplice(actors: seq<Actor>, i: int)
    requires 0 <= i < |actors|
    ensures StatesOf(actors[..i] + actors[i + 1..]) == StatesOf(actors)[..i] + StatesOf(actors)[i + 1..]
  {
    var actors' := actors[..i] + actors[i + 1..];
    var r, s := StatesOf(actors'), StatesOf(actors);
    forall k | 0 <= k < |r|
      ensures r[k] == (s[..i] + s[i + 1..])[k]
    {
      if k < i {
        assert actors'[k] == actors[k];
      } else {
        assert actors'[k] == actors[k + 1];
      }
    }
  }

  /** `Actor`. Only `pos`, `dir` and `order` are ever assigned after creation. */
  class Actor {
    const id: int
    var pos: Vec3
    var dir: int
    var order: Option<Order>
    const actorType: ActorType
    const subType: int
    const name: string

    constructor (id: int, pos: Vec3, dir: int, actorType: ActorType, subType: int, name: string)
      ensures this.id == id && this.pos == pos && this.dir == dir && order == None
      ensures this.actorType == actorType && this.subType == subType && this.name == name
    {
      this.id := id;
      this.pos := pos;
      this.dir := dir;
      this.order := None;
      this.actorType := actorType;
      this.subType := subType;
      this.name := name;
    }

    function State(): ActorState
      reads this
    {
      ActorState(pos, dir, order)
    }

    /** `Actor.Step`: advances the head of the order by one tick. */
    method Step(lookup: map<int, Actor>, terrain: Terrain) returns (anyChange: bool)
      modifies this
      ensures (State(), anyChange) == Tick(old(State()), lookup.Keys, terrain)
    {
      anyChange := false;
      if order.Some? {
        var actions := order.value.actions;
        if |actions| > 0 {
          var first := actions[0];
          if first.startDelay > 0 {
            first := first.(startDelay := first.startDelay - 1);
            actions := [first] + actions[1..];
          } else {
            if !first.hasBeenPerformed {
              if first.kind == Move {
                var clear := terrain.GetIdxOf(first.target) !in lookup;
                if clear {
                  pos := first.target;
                } else {
                  actions := [];  // interrupt: the whole order is dropped
                }
              } else if first.kind == Rotate {
                dir := first.target.x;
              }
              first := first.(hasBeenPerformed := true);
              if actions != [] {
                actions := [first] + actions[1..];
              }
              anyChange := true;
            }
            if first.endDelay > 0 {
              // after an interrupt `first` is no longer in the list
              first := first.(endDelay := first.endDelay - 1);
              if actions != [] {
                actions := [first] + actions[1..];
              }
            } else if |actions| > 0 {
              actions := actions[1..];
            }
          }
        }
        order := if |actions| == 0 then None else Some(Order(actions));
      }
    }
  }
}
