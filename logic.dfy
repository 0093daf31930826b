/** `Logic`: the idle-rat policy, drawing from its own generator. */
module RatLogic {
  import opened Wrappers
  import opened Lists
  import opened Vectors
  import opened Terrains
  import opened Actors
  import opened DeterministicRandom

  /** A one-action order with no delays. */
  function SingleAction(target: Vec3, kind: ActorActionType): Order
  {
    Order([ActorAction(target, 0, 0, kind, false)])
  }

  /** The cell ahead of an actor (`pos + FromDir(dir)`), elevation not yet looked up. */
  function Ahead(s: ActorState): Vec3
    requires IsDir(s.dir)
  {
    Vectors.Add(s.pos, FromDir(s.dir))
  }

  /** The outcome of the policy for one idle rat; `OutOfRange` is the read past the heightmap that throws. */
  datatype Decision = OutOfRange | Decided(rng: RngState, order: Option<Order>)

  /**
   * The policy for one idle rat: with `Range(0, 100) > 20` it acts; it then
   * steps ahead when the climb is at most 1, the cell ahead is above 0 and a
   * second `Range(0, 100) > 30` draw passes, and otherwise turns to the
   * heading `Range(0, 4)`. The second draw is only made when the cell qualifies.
   */
  function Decide(g: RngState, s: ActorState, t: Terrain): (d: Decision)
  {
    var (g1, r1) := Draw(g, 0, 100);
    if r1 <= 20 then Decided(g1, None)
    else if !IsDir(s.dir) || !t.InRange(t.GetIdxOf(Ahead(s))) then OutOfRange
    else
      var nh := t.GetHeightOf(Ahead(s));
      var dh := nh - s.pos.y;
      var npos := Ahead(s).(y := nh);
      if dh <= 1 && nh > 0 then
        var (g2, r2) := Draw(g1, 0, 100);
        if r2 > 30 then Decided(g2, Some(SingleAction(npos, Move)))
        else
          var (g3, h) := Draw(g2, 0, 4);
          Decided(g3, Some(SingleAction(Vec3(h, 0, 0), Rotate)))
      else
        var (g3, h) := Draw(g1, 0, 4);
        Decided(g3, Some(SingleAction(Vec3(h, 0, 0), Rotate)))
  }

  /** Applies the policy to each rat in turn; rats that already have an order are skipped. */
  function UpdatePass(g: RngState, rats: seq<ActorState>, t: Terrain): (r: Option<(RngState, seq<ActorState>)>)
    ensures r.Some? ==> |r.value.1| == |rats|
    decreases |rats|
  {
    if rats == [] then Some((g, []))
    else
      var s := rats[0];
      if s.order.Some? then
        match UpdatePass(g, rats[1..], t)
        case None => None
        case Some((g', rest)) => Some((g', [s] + rest))
      else
        match Decide(g, s, t)
        case OutOfRange => None
        case Decided(g1, o) =>
          match UpdatePass(g1, rats[1..], t)
          case None => None
          case Some((g', rest)) => Some((g', [s.(order := o)] + rest))
  }

  /**
   * What the policy hands out: nothing to a rat with an order; to an idle rat
   * either nothing or a single zero-delay action, which is a Move onto the
   * cell ahead (a 4-neighbour, at its terrain height) exactly when that cell is at most one
   * higher and above 0 and the draw chose to move, and otherwise a Rotate to
   * a heading in `[0, 4)`.
   */
  lemma DecideShape(g: RngState, s: ActorState, t: Terrain)
    requires t.Valid() && Decide(g, s, t).Decided? && Decide(g, s, t).order.Some?
    ensures var o := Decide(g, s, t).order.value;
      |o.actions| == 1 && o.actions[0].startDelay == 0 && o.actions[0].endDelay == 0 &&
      !o.actions[0].hasBeenPerformed &&
      (o.actions[0].kind == Move || o.actions[0].kind == Rotate) &&
      (o.actions[0].kind == Move ==>
         IsDir(s.dir) && t.InRange(t.GetIdxOf(Ahead(s))) &&
         var nh := t.GetHeightOf(Ahead(s));
         nh - s.pos.y <= 1 && nh > 0 && o.actions[0].target == Ahead(s).(y := nh) &&
         IsUnitStep(o.actions[0].target.x - s.pos.x, o.actions[0].target.z - s.pos.z)) &&
      (o.actions[0].kind == Rotate ==> IsDir(o.actions[0].target.x))
  {
    if IsDir(s.dir) {
      AheadOfHeading(s.pos, s.dir);
    }
    DrawFromZero(g, 100);
    DrawFromZero(Advance(g), 100);
    DrawFromZero(Advance(g), 4);
    DrawFromZero(Advance(Advance(g)), 4);
  }

  /** The pass keeps every rat's cell and heading, and only gives orders to the idle ones. */
  lemma {:induction false} UpdatePassEffect(g: RngState, rats: seq<ActorState>, t: Terrain)
    requires UpdatePass(g, rats, t).Some?
    ensures var after := UpdatePass(g, rats, t).value.1;
      |after| == |rats| &&
      forall i :: 0 <= i < |rats| ==>
        after[i].pos == rats[i].pos && after[i].dir == rats[i].dir &&
        (rats[i].order.Some? ==> after[i] == rats[i])
    decreases |rats|
  {
    if rats != [] {
      UpdatePassEffect(if rats[0].order.Some? then g else Decide(g, rats[0], t).rng, rats[1..], t);
    }
  }

  /**
   * For a rat with a heading, the policy fails exactly on the read past the
   * heightmap: the first draw chose to act and the cell ahead is off the map.
   */
  lemma DecideFailsOnlyOffMap(g: RngState, s: ActorState, t: Terrain)
    requires IsDir(s.dir)
    ensures RangeArgs(0, 100)
    ensures Decide(g, s, t).OutOfRange? <==> Draw(g, 0, 100).1 > 20 && !t.InRange(t.GetIdxOf(Ahead(s)))
  {
  }

  /** The pass succeeds when every idle rat has a heading and its cell ahead lies on the map. */
  lemma {:induction false} UpdatePassSucceeds(g: RngState, rats: seq<ActorState>, t: Terrain)
    requires forall i :: 0 <= i < |rats| && rats[i].order.None? ==>
      IsDir(rats[i].dir) && t.InRange(t.GetIdxOf(Ahead(rats[i])))
    ensures UpdatePass(g, rats, t).Some?
    decreases |rats|
  {
    if rats != [] {
      assert forall i :: 0 <= i < |rats| - 1 ==> rats[1..][i] == rats[i + 1];
      if rats[0].order.Some? {
        UpdatePassSucceeds(g, rats[1..], t);
      } else {
        DecideFailsOnlyOffMap(g, rats[0], t);
        UpdatePassSucceeds(Decide(g, rats[0], t).rng, rats[1..], t);
      }
    }
  }

  /** The state of one rat after the pass has visited it. */
  function Visited(g: RngState, s: ActorState, t: Terrain): (RngState, ActorState)
    requires s.order.None? ==> Decide(g, s, t).Decided?
  {
    if s.order.Some? then (g, s)
    else (Decide(g, s, t).rng, s.(order := Decide(g, s, t).order))
  }

  /** `done` followed by the states a pass produced, when it did not fail. */
  function Prepend(done: seq<ActorState>, r: Option<(RngState, seq<ActorState>)>): Option<(RngState, seq<ActorState>)>
  {
    match r
    case None => None
    case Some((g, rest)) => Some((g, done + rest))
  }

  /** One unfolding of the pass, at position `i`: `done` grows by the visited rat. */
  lemma UpdatePassStep(g0: RngState, s0: seq<ActorState>, done: seq<ActorState>, g: RngState, i: nat, t: Terrain)
    requires i < |s0|
    requires UpdatePass(g0, s0, t) == Prepend(done, UpdatePass(g, s0[i..], t)) && UpdatePass(g0, s0, t).Some?
    ensures s0[i].order.None? ==> Decide(g, s0[i], t).Decided?
    ensures var (g1, s1) := Visited(g, s0[i], t);
      UpdatePass(g0, s0, t) == Prepend(done + [s1], UpdatePass(g1, s0[i + 1..], t))
  {
    assert s0[i..][0] == s0[i] && s0[i..][1..] == s0[i + 1..];
    var (g1, s1) := if s0[i].order.Some? then (g, s0[i]) else (Decide(g, s0[i], t).rng, s0[i].(order := Decide(g, s0[i], t).order));
    assert UpdatePass(g, s0[i..], t) == Prepend([s1], UpdatePass(g1, s0[i + 1..], t));
    var r := UpdatePass(g1, s0[i + 1..], t).value;
    assert done + ([s1] + r.1) == (done + [s1]) + r.1;
  }

  /** `Logic`. */
  class Logic {
    var rats: seq<Actor>
    const terrain: Terrain
    const random: Random

    /** The dictionary the source passes in is never read by `Logic`, so it is not a parameter here. */
    constructor (terrain: Terrain, seed: int)
      ensures rats == [] && this.terrain == terrain && fresh(random)
      ensures random.State() == Seeded(SeedOf(seed))
    {
      rats := [];
      this.terrain := terrain;
      random := new Random(SeedOf(seed));
    }

    /** `Add`: only rats are tracked. */
    method Add(actor: Actor)
      modifies this`rats
      ensures rats == if actor.actorType == Rat then old(rats) + [actor] else old(rats)
    {
      if actor.actorType == Rat {
        rats := rats + [actor];
      }
    }

    /** `Remove`: `List.Remove` on the tracked rats. */
    method Remove(actor: Actor)
      modifies this`rats
      ensures rats == if actor.actorType == Rat then RemoveFirst(old(rats), actor) else old(rats)
    {
      if actor.actorType == Rat {
        rats := RemoveFirst(rats, actor);
      }
    }

    /** The states of the tracked rats, in list order. */
    function RatStates(): seq<ActorState>
      reads this, set r | r in rats
    {
      StatesOf(rats)
    }

    /** The body of `Update`'s loop for one idle rat. */
    method Consider(rat: Actor)
      requires rat.order.None? && Decide(random.State(), rat.State(), terrain).Decided?
      modifies random, rat
      ensures Decide(old(random.State()), old(rat.State()), terrain) == Decided(random.State(), rat.order)
      ensures rat.pos == old(rat.pos) && rat.dir == old(rat.dir)
    {
      var roll := random.Range(0, 100);
      if roll > 20 {
        var npos := Vectors.Add(rat.pos, FromDir(rat.dir));
        var nh := terrain.GetHeightOf(npos);
        var dh := nh - rat.pos.y;
        npos := npos.(y := nh);
        var move := false;
        if dh <= 1 && nh > 0 {
          var roll2 := random.Range(0, 100);
          move := roll2 > 30;
        }
        if move {
          rat.order := Some(SingleAction(npos, Move));
        } else {
          var h := random.Range(0, 4);
          rat.order := Some(SingleAction(Vec3(h, 0, 0), Rotate));
        }
      }
    }

    /**
     * One iteration of `Update`'s loop, on the rat at position `i`: the
     * states so far are `done` followed by `rest`, and only this rat's
     * entry changes.
     */
    method Visit(i: nat, ghost done: seq<ActorState>, ghost rest: seq<ActorState>)
      requires Distinct(rats) && |done| == i < |rats| && RatStates() == done + rest
      requires rats[i].order.None? ==> Decide(random.State(), rats[i].State(), terrain).Decided?
      modifies random, rats[i]
      ensures (random.State(), rats[i].State()) == Visited(old(random.State()), old(rats[i].State()), terrain)
      ensures RatStates() == done + [rats[i].State()] + rest[1..]
    {
      var rat := rats[i];
      if rat.order.None? {
        Consider(rat);
      }
      forall j | 0 <= j < |rats|
        ensures RatStates()[j] == (done + [rats[i].State()] + rest[1..])[j]
      {
        if j != i {
          assert rats[j] != rat;
          assert old(RatStates())[j] == (done + rest)[j];
        }
      }
    }

    /**
     * `Update`: gives each idle rat its order for this tick. Requires that the
     * pass does not read past the heightmap, which the source does not check.
     */
    method Update()
      requires Distinct(rats)
      requires UpdatePass(random.State(), RatStates(), terrain).Some?
      modifies random, set r | r in rats
      ensures rats == old(rats)
      ensures UpdatePass(old(random.State()), old(RatStates()), terrain) == Some((random.State(), RatStates()))
    {
      ghost var g0 := random.State();
      ghost var s0 := RatStates();
      ghost var done: seq<ActorState> := [];
      var i := 0;
      assert s0[0..] == s0;
      assert [] + UpdatePass(g0, s0, terrain).value.1 == UpdatePass(g0, s0, terrain).value.1;
      assert UpdatePass(g0, s0, terrain) == Prepend(done, UpdatePass(g0, s0[0..], terrain));
      while i < |rats|
        invariant 0 <= i <= |rats| && |done| == i
        invariant RatStates() == done + s0[i..]
        invariant UpdatePass(g0, s0, terrain) == Prepend(done, UpdatePass(random.State(), s0[i..], terrain))
      {
        assert RatStates()[i] == s0[i];
        UpdatePassStep(g0, s0, done, random.State(), i, terrain);
        Visit(i, done, s0[i..]);
        assert s0[i..][1..] == s0[i + 1..];
        done := done + [rats[i].State()];
        i := i + 1;
      }
      assert s0[|rats|..] == [];
      assert done + [] == done;
    }
  }
}
