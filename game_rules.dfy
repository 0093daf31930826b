/**
 * The value-level rules `SurvivalGame` follows: the free-spot search, the
 * list of tracked rats, and one frame's pass over the actors.
 */
module GameRules {
  import opened Wrappers
  import opened Lists
  import opened Vectors
  import opened Terrains
  import opened DeterministicRandom
  import opened Actors
  import opened RatLogic

  /** The number of attempts `GetFreeSpot` makes at most. */
  const FreeSpotAttempts := 100

  /** A terrain whose size the generator's `Range(0, size)` accepts. */
  ghost predicate Playable(t: Terrain)
  {
    t.Valid() && t.size < TWO31
  }

  /**
   * `GetFreeSpot` from attempt `j` on, with `pos` the candidate so far. An
   * attempt draws `x`, then `z`, in `[0, size)`; an occupied cell is skipped
   * (the candidate keeps `y == 0`); otherwise `y` becomes the terrain height
   * and the search stops when that is above 0. After the last attempt the
   * last candidate is returned whatever it is.
   */
  function FreeSpotFrom(g: RngState, occupied: set<int>, t: Terrain, j: nat, pos: Vec3): (RngState, Vec3)
    requires Playable(t)
    decreases FreeSpotAttempts - j
  {
    if j >= FreeSpotAttempts then (g, pos)
    else
      DrawFromZero(g, t.size);
      var (g1, x) := Draw(g, 0, t.size);
      DrawFromZero(g1, t.size);
      var (g2, z) := Draw(g1, 0, t.size);
      var p := Vec3(x, 0, z);
      if t.GetIdxOf(p) in occupied then FreeSpotFrom(g2, occupied, t, j + 1, p)
      else
        IndexRoundTrip(t, x, z);
        var p' := p.(y := t.GetHeightOf(p));
        if p'.y > 0 then (g2, p') else FreeSpotFrom(g2, occupied, t, j + 1, p')
  }

  /** `GetFreeSpot`, starting from the candidate `new Vec3()`. */
  function FreeSpot(g: RngState, occupied: set<int>, t: Terrain): (RngState, Vec3)
    requires Playable(t)
  {
    FreeSpotFrom(g, occupied, t, 0, Vec3(0, 0, 0))
  }

  /** The generator after `k` attempts of two draws each. */
  function AfterAttempts(g: RngState, k: nat): RngState
  {
    AdvanceN(g, 2 * k)
  }

  lemma AfterOneMore(g: RngState, k: nat)
    ensures AfterAttempts(Advance(Advance(g)), k) == AfterAttempts(g, k + 1)
  {
    assert AdvanceN(g, 2 * (k + 1)) == AdvanceN(Advance(g), 2 * k + 1);
  }

  /**
   * What `GetFreeSpot` returns: a cell of the grid; when the cell is free its
   * `y` is the terrain height, and when `y` is above 0 the cell is free (an
   * occupied last candidate keeps `y == 0`). It makes between 1 and 100
   * attempts of two draws each.
   */
  lemma {:induction false} FreeSpotShape(g: RngState, occupied: set<int>, t: Terrain, j: nat, pos: Vec3)
    requires Playable(t) && j <= FreeSpotAttempts
    requires j > 0 ==>
      t.InGrid(pos.x, pos.z) &&
      (t.GetIdxOf(pos) !in occupied ==> t.InRange(t.GetIdxOf(pos)) && pos.y == t.GetHeightOf(pos)) &&
      (pos.y > 0 ==> t.GetIdxOf(pos) !in occupied)
    ensures var (g', p) := FreeSpotFrom(g, occupied, t, j, pos);
      t.InGrid(p.x, p.z) && t.InRange(t.GetIdxOf(p)) &&
      (t.GetIdxOf(p) !in occupied ==> p.y == t.GetHeightOf(p)) &&
      (p.y > 0 ==> t.GetIdxOf(p) !in occupied) &&
      (j < FreeSpotAttempts ==> exists k :: 1 <= k <= FreeSpotAttempts - j && g' == AfterAttempts(g, k))
    decreases FreeSpotAttempts - j
  {
    if j < FreeSpotAttempts {
      DrawFromZero(g, t.size);
      var (g1, x) := Draw(g, 0, t.size);
      DrawFromZero(g1, t.size);
      var (g2, z) := Draw(g1, 0, t.size);
      IndexRoundTrip(t, x, z);
      var p := Vec3(x, 0, z);
      assert g2 == AfterAttempts(g, 1);
      if t.GetIdxOf(p) in occupied || t.GetHeightOf(p) <= 0 {
        var next := if t.GetIdxOf(p) in occupied then p else p.(y := t.GetHeightOf(p));
        assert FreeSpotFrom(g, occupied, t, j, pos) == FreeSpotFrom(g2, occupied, t, j + 1, next);
        FreeSpotShape(g2, occupied, t, j + 1, next);
        if j + 1 < FreeSpotAttempts {
          var k :| 1 <= k <= FreeSpotAttempts - (j + 1) && FreeSpotFrom(g2, occupied, t, j + 1, next).0 == AfterAttempts(g2, k);
          AfterOneMore(g, k);
        }
      }
    } else {
      IndexRoundTrip(t, pos.x, pos.z);
    }
  }

  /** The tracked rats: the rats of `actors`, in list order (`Logic.Add` is applied to every spawned actor). */
  function RatsOf(actors: seq<Actor>): (r: seq<Actor>)
    ensures forall i :: 0 <= i < |r| ==> r[i].actorType == Rat
  {
    if actors == [] then []
    else (if actors[0].actorType == Rat then [actors[0]] else []) + RatsOf(actors[1..])
  }

  /** The tracked rats are actors. */
  lemma RatsOfIn(actors: seq<Actor>)
    ensures forall r :: r in RatsOf(actors) ==> r in actors
  {
    forall r | r in RatsOf(actors)
      ensures r in actors
    {
      var k :| 0 <= k < |RatsOf(actors)| && RatsOf(actors)[k] == r;
      var j := RatsOfSource(actors, k);
    }
  }

  /** Every tracked rat is listed among the actors. */
  lemma {:induction false} RatsOfSource(actors: seq<Actor>, k: int) returns (j: int)
    requires 0 <= k < |RatsOf(actors)|
    ensures 0 <= j < |actors| && actors[j] == RatsOf(actors)[k]
  {
    var rest := actors[1..];
    RatsOfCons(actors[0], rest);
    assert [actors[0]] + rest == actors;
    if actors[0].actorType == Rat && k == 0 {
      j := 0;
    } else {
      var k' := if actors[0].actorType == Rat then k - 1 else k;
      assert RatsOf(actors)[k] == RatsOf(rest)[k'];
      var j' := RatsOfSource(rest, k');
      j := j' + 1;
    }
  }

  /** Where the rat `actors[j]` sits among the tracked rats. */
  function RatIdx(actors: seq<Actor>, j: int): (k: nat)
    requires 0 <= j < |actors|
    ensures k <= |RatsOf(actors)|
    ensures actors[j].actorType == Rat ==> k < |RatsOf(actors)| && RatsOf(actors)[k] == actors[j]
  {
    if j == 0 then 0
    else (if actors[0].actorType == Rat then 1 else 0) + RatIdx(actors[1..], j - 1)
  }

  /** Spawning appends to the tracked rats exactly when the new actor is a rat (`Logic.Add`). */
  lemma {:induction false} RatsOfAppend(actors: seq<Actor>, a: Actor)
    ensures RatsOf(actors + [a]) == RatsOf(actors) + (if a.actorType == Rat then [a] else [])
  {
    if actors == [] {
      assert [a][1..] == [];
    } else {
      assert (actors + [a])[1..] == actors[1..] + [a];
      RatsOfAppend(actors[1..], a);
    }
  }

  /** Removing an actor removes it from the tracked rats when it is a rat (`Logic.Remove`). */
  lemma {:induction false} RatsOfRemove(actors: seq<Actor>, a: Actor)
    ensures RatsOf(RemoveFirst(actors, a)) == if a.actorType == Rat then RemoveFirst(RatsOf(actors), a) else RatsOf(actors)
  {
    if actors != [] {
      var y, rest := actors[0], actors[1..];
      assert actors == [y] + rest;
      if y != a {
        RatsOfRemove(rest, a);
        RatsOfRemoveSkip(y, rest, a);
      } else {
        RatsOfCons(y, rest);
        RemoveFirstCons(y, rest, a);
        if y.actorType == Rat {
          RemoveFirstCons(y, RatsOf(rest), a);
        }
      }
    }
  }

  lemma RatsOfRemoveSkip(y: Actor, rest: seq<Actor>, a: Actor)
    requires y != a
    requires RatsOf(RemoveFirst(rest, a)) == if a.actorType == Rat then RemoveFirst(RatsOf(rest), a) else RatsOf(rest)
    ensures RatsOf(RemoveFirst([y] + rest, a)) == if a.actorType == Rat then RemoveFirst(RatsOf([y] + rest), a) else RatsOf([y] + rest)
  {
    var r := RemoveFirst(rest, a);
    var h: seq<Actor> := if y.actorType == Rat then [y] else [];
    RemoveFirstCons(y, rest, a);
    assert RemoveFirst([y] + rest, a) == [y] + r;
    RatsOfCons(y, r);
    RatsOfCons(y, rest);
    assert RatsOf([y] + r) == h + RatsOf(r);
    assert RatsOf([y] + rest) == h + RatsOf(rest);
    if a.actorType == Rat {
      if y.actorType == Rat {
        RemoveFirstCons(y, RatsOf(rest), a);
      } else {
        assert h + RatsOf(rest) == RatsOf(rest);
      }
    }
  }

  lemma RatsOfCons(y: Actor, rest: seq<Actor>)
    ensures RatsOf([y] + rest) == (if y.actorType == Rat then [y] else []) + RatsOf(rest)
  {
    assert ([y] + rest)[1..] == rest;
  }

  lemma {:induction false} RatsOfDistinct(actors: seq<Actor>)
    requires Distinct(actors)
    ensures Distinct(RatsOf(actors))
  {
    if actors != [] {
      var rest := actors[1..];
      assert Distinct(rest) by {
        assert forall i :: 0 <= i < |actors| - 1 ==> rest[i] == actors[i + 1];
      }
      RatsOfDistinct(rest);
      RatsOfCons(actors[0], rest);
      assert [actors[0]] + rest == actors;
      forall k | 0 <= k < |RatsOf(rest)|
        ensures RatsOf(rest)[k] != actors[0]
      {
        var m := RatsOfSource(rest, k);
        assert actors[m + 1] == rest[m];
      }
    }
  }

  /**
   * The actors' states once the rat pass has produced `rs`, the new states of
   * the tracked rats in order: a rat takes its entry of `rs`, any other actor
   * keeps its state.
   */
  function Merge(actors: seq<Actor>, states: seq<ActorState>, rs: seq<ActorState>): (r: seq<ActorState>)
    requires |states| == |actors|
    ensures |r| == |actors|
  {
    seq(|actors|, j requires 0 <= j < |actors| =>
      if actors[j].actorType == Rat && RatIdx(actors, j) < |rs| then rs[RatIdx(actors, j)] else states[j])
  }

  /**
   * An actor's cell index lies in the heightmap and it keeps a heading: the
   * row-major index `z * size + x` of its cell is in range (`x` itself may
   * leave `[0, size)` and wrap into the neighbouring row, as the source's
   * reads do), its heading is in `[0, 4)`, and so is every action it has
   * queued.
   */
  predicate InMap(s: ActorState, t: Terrain)
  {
    t.InRange(t.GetIdxOf(s.pos)) && IsDir(s.dir) &&
    (s.order.Some? ==> forall a :: a in s.order.value.actions ==> ActionInMap(a, t))
  }

  /** A queued Move targets a cell whose index lies in the heightmap, and a queued Rotate a heading. */
  predicate ActionInMap(a: ActorAction, t: Terrain)
  {
    (a.kind == Move ==> t.InRange(t.GetIdxOf(a.target))) && (a.kind == Rotate ==> IsDir(a.target.x))
  }

  /** `Actor.Step` keeps an actor's cell index in the heightmap and its heading in `[0, 4)`. */
  lemma TickInMap(s: ActorState, occupied: set<int>, t: Terrain)
    requires InMap(s, t)
    ensures InMap(Tick(s, occupied, t).0, t)
  {
    var s' := Tick(s, occupied, t).0;
    if s.order.Some? && s.order.value.actions != [] {
      var acts := s.order.value.actions;
      assert acts[0] in acts;
      assert forall a :: a in acts[1..] ==> a in acts;
      if s'.order.Some? {
        forall a | a in s'.order.value.actions
          ensures ActionInMap(a, t)
        {
          if a !in acts[1..] {
            assert a.target == acts[0].target && a.kind == acts[0].kind;
          }
        }
      }
    }
  }

  /** The rat policy keeps a rat's cell index in the heightmap (the Move it queues is onto the checked cell ahead). */
  lemma DecideInMap(g: RngState, s: ActorState, t: Terrain)
    requires Playable(t) && InMap(s, t) && s.order.None? && Decide(g, s, t).Decided?
    ensures InMap(s.(order := Decide(g, s, t).order), t)
  {
    if Decide(g, s, t).order.Some? {
      DecideShape(g, s, t);
      var a := Decide(g, s, t).order.value.actions[0];
      if a.kind == Move {
        IndexIgnoresElevation(t, Ahead(s), t.GetHeightOf(Ahead(s)));
      }
    }
  }

  lemma {:induction false} UpdatePassInMap(g: RngState, rats: seq<ActorState>, t: Terrain)
    requires Playable(t) && UpdatePass(g, rats, t).Some?
    requires forall i :: 0 <= i < |rats| ==> InMap(rats[i], t)
    ensures var after := UpdatePass(g, rats, t).value.1;
      |after| == |rats| && forall i :: 0 <= i < |after| ==> InMap(after[i], t)
    decreases |rats|
  {
    if rats != [] {
      var s := rats[0];
      var g1 := if s.order.Some? then g else Decide(g, s, t).rng;
      var h := if s.order.Some? then s else s.(order := Decide(g, s, t).order);
      assert forall i :: 0 <= i < |rats| - 1 ==> InMap(rats[1..][i], t) by {
        assert forall i :: 0 <= i < |rats| - 1 ==> rats[1..][i] == rats[i + 1];
      }
      UpdatePassInMap(g1, rats[1..], t);
      if s.order.None? {
        DecideInMap(g, s, t);
      }
      var after := UpdatePass(g, rats, t).value.1;
      var tail := UpdatePass(g1, rats[1..], t).value.1;
      assert after == [h] + tail;
      assert InMap(h, t);
      assert forall i :: 1 <= i < |after| ==> after[i] == tail[i - 1];
    }
  }

  /**
   * The rat pass as the actors see it: every actor keeps its cell and
   * heading, only idle rats can get an order, and every actor's cell index
   * stays in the heightmap.
   */
  lemma MergePass(g: RngState, actors: seq<Actor>, states: seq<ActorState>, rats: seq<ActorState>, t: Terrain)
    requires Playable(t) && Distinct(actors) && |states| == |actors| && |rats| == |RatsOf(actors)|
    requires forall j :: 0 <= j < |actors| && actors[j].actorType == Rat ==> rats[RatIdx(actors, j)] == states[j]
    requires forall j :: 0 <= j < |actors| ==> InMap(states[j], t)
    requires UpdatePass(g, rats, t).Some?
    ensures var mid := Merge(actors, states, UpdatePass(g, rats, t).value.1);
      forall j :: 0 <= j < |actors| ==>
        mid[j].pos == states[j].pos && mid[j].dir == states[j].dir && InMap(mid[j], t) &&
        (actors[j].actorType != Rat || states[j].order.Some? ==> mid[j] == states[j])
  {
    UpdatePassEffect(g, rats, t);
    assert forall k :: 0 <= k < |rats| ==> InMap(rats[k], t) by {
      forall k | 0 <= k < |rats|
        ensures InMap(rats[k], t)
      {
        var a := RatsOf(actors)[k];
        var j := RatsOfSource(actors, k);
        assert rats[RatIdx(actors, j)] == states[j];
        RatIdxUnique(actors, j, k);
      }
    }
    UpdatePassInMap(g, rats, t);
  }

  /** Distinct positions of the tracked rats belong to distinct positions of the actors. */
  lemma {:induction false} RatIdxUnique(actors: seq<Actor>, j: int, k: int)
    requires Distinct(actors) && 0 <= j < |actors| && 0 <= k < |RatsOf(actors)| && RatsOf(actors)[k] == actors[j]
    ensures RatIdx(actors, j) == k
  {
    var rest := actors[1..];
    assert Distinct(rest) by {
      assert forall i :: 0 <= i < |rest| ==> rest[i] == actors[i + 1];
    }
    RatsOfCons(actors[0], rest);
    assert [actors[0]] + rest == actors;
    if actors[0].actorType == Rat {
      RatsOfHeadOnce(actors);
      if j > 0 {
        assert actors[0] != actors[j];
        assert k != 0;
        assert RatsOf(actors) == [actors[0]] + RatsOf(rest);
        assert 0 <= k - 1 < |RatsOf(rest)|;
        assert RatsOf(rest)[k - 1] == rest[j - 1];
        RatIdxUnique(rest, j - 1, k - 1);
      }
    } else {
      assert j > 0;
      assert RatsOf(rest)[k] == rest[j - 1];
      RatIdxUnique(rest, j - 1, k);
    }
  }

  /** A rat at the head of a list without repeats occurs among the tracked rats only first. */
  lemma RatsOfHeadOnce(actors: seq<Actor>)
    requires Distinct(actors) && actors != [] && actors[0].actorType == Rat
    ensures |RatsOf(actors)| > 0 && RatsOf(actors)[0] == actors[0]
    ensures forall k :: 1 <= k < |RatsOf(actors)| ==> RatsOf(actors)[k] != actors[0]
  {
    var rest := actors[1..];
    RatsOfCons(actors[0], rest);
    assert [actors[0]] + rest == actors;
    forall k | 1 <= k < |RatsOf(actors)|
      ensures RatsOf(actors)[k] != actors[0]
    {
      assert RatsOf(actors)[k] == RatsOf(rest)[k - 1];
      var m := RatsOfSource(rest, k - 1);
      assert actors[m + 1] == rest[m];
    }
  }

  /**
   * One frame's pass over the first `n` actors (`SurvivalGame.Step`'s loop):
   * each is stepped against the current occupancy, and one that moved is
   * re-keyed at once from its old cell to its new one. Returns the new
   * states, which calls reported a change, and the occupied cells.
   */
  function TickActors(states: seq<ActorState>, occupied: set<int>, t: Terrain, n: nat): (r: (seq<ActorState>, seq<bool>, set<int>))
    requires n <= |states|
    ensures |r.0| == |states| && |r.1| == n
    ensures forall j :: n <= j < |states| ==> r.0[j] == states[j]
    decreases n
  {
    if n == 0 then (states, [], occupied)
    else
      var (ss, flags, occ) := TickActors(states, occupied, t, n - 1);
      var prev := states[n - 1];
      var (s', changed) := Tick(prev, occ, t);
      var occ' := if changed && prev.pos != s'.pos then (occ - {t.GetIdxOf(prev.pos)}) + {t.GetIdxOf(s'.pos)} else occ;
      (ss[n - 1 := s'], flags + [changed], occ')
  }

  /** The pass over `n + 1` actors: the `n`-th actor steps against the occupancy left by the first `n`. */
  lemma TickActorsNext(states: seq<ActorState>, occupied: set<int>, t: Terrain, n: nat)
    requires n < |states|
    ensures var (ss, flags, occ) := TickActors(states, occupied, t, n);
      var (s', changed) := Tick(states[n], occ, t);
      ss[n] == states[n] &&
      TickActors(states, occupied, t, n + 1) ==
        (ss[n := s'], flags + [changed],
         if changed && states[n].pos != s'.pos then (occ - {t.GetIdxOf(states[n].pos)}) + {t.GetIdxOf(s'.pos)} else occ)
  {
  }

  /** The elements of `xs` whose flag is set, in order; the flags cover a prefix of `xs`. */
  function Select<T>(xs: seq<T>, flags: seq<bool>): (r: seq<T>)
    requires |flags| <= |xs|
    ensures forall x :: x in r ==> x in xs
    decreases |flags|
  {
    if flags == [] then []
    else
      var n := |flags| - 1;
      Select(xs, flags[..n]) + (if flags[n] then [xs[n]] else [])
  }

  lemma SelectNext<T>(xs: seq<T>, flags: seq<bool>, b: bool)
    requires |flags| < |xs|
    ensures Select(xs, flags + [b]) == Select(xs, flags) + (if b then [xs[|flags|]] else [])
  {
    assert (flags + [b])[..|flags|] == flags;
  }

  /** The cells the states stand on. */
  function CellsOf(states: seq<ActorState>, t: Terrain): set<int>
  {
    set j | 0 <= j < |states| :: t.GetIdxOf(states[j].pos)
  }

  /** No two states stand on the same cell. */
  predicate OnePerCell(states: seq<ActorState>, t: Terrain)
  {
    forall i, j :: 0 <= i < j < |states| ==> t.GetIdxOf(states[i].pos) != t.GetIdxOf(states[j].pos)
  }

  /** Re-keying one actor from its old cell to a free one keeps one actor per cell. */
  lemma RekeyOne(ss: seq<ActorState>, i: int, s': ActorState, t: Terrain)
    requires 0 <= i < |ss| && OnePerCell(ss, t)
    requires ss[i].pos != s'.pos ==> t.GetIdxOf(s'.pos) !in CellsOf(ss, t)
    ensures OnePerCell(ss[i := s'], t)
    ensures CellsOf(ss[i := s'], t) ==
      if ss[i].pos != s'.pos then (CellsOf(ss, t) - {t.GetIdxOf(ss[i].pos)}) + {t.GetIdxOf(s'.pos)} else CellsOf(ss, t)
  {
    var ss' := ss[i := s'];
    if ss[i].pos != s'.pos {
      forall j | 0 <= j < |ss| && j != i
        ensures t.GetIdxOf(ss[j].pos) != t.GetIdxOf(ss[i].pos) && t.GetIdxOf(ss[j].pos) != t.GetIdxOf(s'.pos)
      {
        assert t.GetIdxOf(ss[j].pos) in CellsOf(ss, t);
      }
      var want := (CellsOf(ss, t) - {t.GetIdxOf(ss[i].pos)}) + {t.GetIdxOf(s'.pos)};
      forall c | c in want
        ensures c in CellsOf(ss', t)
      {
        if c != t.GetIdxOf(s'.pos) {
          var j :| 0 <= j < |ss| && t.GetIdxOf(ss[j].pos) == c;
          assert ss'[j] == ss[j];
        } else {
          assert t.GetIdxOf(ss'[i].pos) == c;
        }
      }
      forall c | c in CellsOf(ss', t)
        ensures c in want
      {
        var j :| 0 <= j < |ss'| && t.GetIdxOf(ss'[j].pos) == c;
        if j != i {
          assert t.GetIdxOf(ss[j].pos) in CellsOf(ss, t);
        }
      }
    } else {
      forall j | 0 <= j < |ss|
        ensures t.GetIdxOf(ss'[j].pos) == t.GetIdxOf(ss[j].pos)
      {
      }
      assert CellsOf(ss', t) == CellsOf(ss, t);
    }
  }

  /**
   * One frame's pass keeps one actor per cell, and the occupancy it threads
   * through is exactly the set of cells the actors stand on.
   */
  lemma {:induction false} TickActorsOccupancy(states: seq<ActorState>, occupied: set<int>, t: Terrain, n: nat)
    requires n <= |states| && OnePerCell(states, t) && occupied == CellsOf(states, t)
    ensures var (ss, _, occ) := TickActors(states, occupied, t, n);
      OnePerCell(ss, t) && occ == CellsOf(ss, t)
    decreases n
  {
    if n > 0 {
      TickActorsOccupancy(states, occupied, t, n - 1);
      var (ss, flags, occ) := TickActors(states, occupied, t, n - 1);
      var prev := states[n - 1];
      assert ss[n - 1] == prev;
      TickMovesOnlyToFreeCells(prev, occ, t);
      var s' := Tick(prev, occ, t).0;
      RekeyOne(ss, n - 1, s', t);
    }
  }

  /** One frame's pass keeps every actor's cell index in the heightmap. */
  lemma {:induction false} TickActorsInMap(states: seq<ActorState>, occupied: set<int>, t: Terrain, n: nat)
    requires n <= |states| && forall j :: 0 <= j < |states| ==> InMap(states[j], t)
    ensures forall j :: 0 <= j < |states| ==> InMap(TickActors(states, occupied, t, n).0[j], t)
    decreases n
  {
    if n > 0 {
      TickActorsInMap(states, occupied, t, n - 1);
      var prior := TickActors(states, occupied, t, n - 1);
      TickInMap(states[n - 1], prior.2, t);
      var s' := Tick(states[n - 1], prior.2, t).0;
      assert TickActors(states, occupied, t, n).0 == prior.0[n - 1 := s'];
    }
  }

  /** The cell of each state, in order. */
  function CellSeq(states: seq<ActorState>, t: Terrain): (c: seq<int>)
    ensures |c| == |states| && forall j :: 0 <= j < |states| ==> c[j] == t.GetIdxOf(states[j].pos)
  {
    seq(|states|, j requires 0 <= j < |states| => t.GetIdxOf(states[j].pos))
  }

  /** The elements of a sequence, as a set. */
  function Elems<T>(s: seq<T>): set<T>
  {
    set x | x in s
  }

  lemma CellSeqAppend(states: seq<ActorState>, s: ActorState, t: Terrain)
    ensures CellSeq(states + [s], t) == CellSeq(states, t) + [t.GetIdxOf(s.pos)]
  {
    assert forall j :: 0 <= j < |states| ==> (states + [s])[j] == states[j];
  }

  lemma CellSeqSplice(states: seq<ActorState>, i: int, t: Terrain)
    requires 0 <= i < |states|
    ensures CellSeq(states[..i] + states[i + 1..], t) == CellSeq(states, t)[..i] + CellSeq(states, t)[i + 1..]
  {
    var states' := states[..i] + states[i + 1..];
    assert forall k :: 0 <= k < |states'| ==> states'[k] == states[if k < i then k else k + 1];
  }

  /** States on the same positions stand on the same cells. */
  lemma CellSeqSamePos(s1: seq<ActorState>, s2: seq<ActorState>, t: Terrain)
    requires |s1| == |s2| && forall j :: 0 <= j < |s1| ==> s1[j].pos == s2[j].pos
    ensures CellSeq(s1, t) == CellSeq(s2, t)
  {
  }

  lemma CellSeqUpdate(states: seq<ActorState>, i: int, s: ActorState, t: Terrain)
    requires 0 <= i < |states|
    ensures CellSeq(states[i := s], t) == CellSeq(states, t)[i := t.GetIdxOf(s.pos)]
  {
  }

  /** `CellsOf` and `OnePerCell` read off the cell sequence. */
  lemma CellSeqFacts(states: seq<ActorState>, t: Terrain)
    ensures CellsOf(states, t) == Elems(CellSeq(states, t))
    ensures OnePerCell(states, t) <==> Distinct(CellSeq(states, t))
  {
    var c := CellSeq(states, t);
    forall x | x in CellsOf(states, t)
      ensures x in c
    {
      var j :| 0 <= j < |states| && t.GetIdxOf(states[j].pos) == x;
      assert c[j] == x;
    }
    forall x | x in c
      ensures x in CellsOf(states, t)
    {
      var j :| 0 <= j < |c| && c[j] == x;
      assert t.GetIdxOf(states[j].pos) == x;
    }
  }

  /**
   * `m_lookup` as the occupancy dictionary of `actors` standing on `cells`:
   * each actor is keyed under its own cell, and there is no other key.
   */
  predicate Keyed(actors: seq<Actor>, cells: seq<int>, lookup: map<int, Actor>)
  {
    |actors| == |cells| && lookup.Keys == Elems(cells) &&
    forall j :: 0 <= j < |cells| ==> cells[j] in lookup && lookup[cells[j]] == actors[j]
  }

  /** Every actor stands, and every queued move ends, on a cell whose index lies in the heightmap. */
  predicate AllInMap(states: seq<ActorState>, t: Terrain)
  {
    forall j :: 0 <= j < |states| ==> InMap(states[j], t)
  }

  /** Distinct actors keyed by their cells stand on distinct cells. */
  lemma KeyedDistinct(actors: seq<Actor>, cells: seq<int>, lookup: map<int, Actor>)
    requires Keyed(actors, cells, lookup) && Distinct(actors)
    ensures Distinct(cells)
  {
    forall i, j | 0 <= i < j < |cells|
      ensures cells[i] != cells[j]
    {
      assert lookup[cells[i]] == actors[i] != actors[j] == lookup[cells[j]];
    }
  }

  /** `SpawnActor` on a free cell: the new actor is keyed under its cell. */
  lemma KeyedAdd(actors: seq<Actor>, cells: seq<int>, lookup: map<int, Actor>, a: Actor, c: int)
    requires Keyed(actors, cells, lookup) && c !in lookup
    ensures Keyed(actors + [a], cells + [c], lookup[c := a])
  {
    var cells' := cells + [c];
    assert Elems(cells') == Elems(cells) + {c} by {
      assert forall x :: x in cells' <==> x in cells || x == c;
    }
    assert forall j :: 0 <= j < |cells| ==> cells'[j] == cells[j] && cells[j] != c;
  }

  /** `KillActor` of the actor at `i`: its cell is no longer a key, the others keep theirs. */
  lemma KeyedRemove(actors: seq<Actor>, cells: seq<int>, lookup: map<int, Actor>, i: int)
    requires Keyed(actors, cells, lookup) && Distinct(actors) && 0 <= i < |actors|
    ensures Keyed(actors[..i] + actors[i + 1..], cells[..i] + cells[i + 1..], lookup - {cells[i]})
  {
    KeyedDistinct(actors, cells, lookup);
    var actors', cells' := actors[..i] + actors[i + 1..], cells[..i] + cells[i + 1..];
    assert forall k :: 0 <= k < |cells'| ==> cells'[k] == cells[if k < i then k else k + 1];
    assert forall k :: 0 <= k < |actors'| ==> actors'[k] == actors[if k < i then k else k + 1];
    forall x | x in Elems(cells) - {cells[i]}
      ensures x in cells'
    {
      var j :| 0 <= j < |cells| && cells[j] == x;
      assert cells'[if j < i then j else j - 1] == x;
    }
  }

  /** An actor that moves from its own cell to a free one is re-keyed under the new cell. */
  lemma KeyedMove(actors: seq<Actor>, cells: seq<int>, lookup: map<int, Actor>, i: int, c: int)
    requires Keyed(actors, cells, lookup) && Distinct(actors) && 0 <= i < |actors| && c !in lookup
    ensures Keyed(actors, cells[i := c], (lookup - {cells[i]})[c := actors[i]])
  {
    KeyedDistinct(actors, cells, lookup);
    var cells' := cells[i := c];
    var lookup' := (lookup - {cells[i]})[c := actors[i]];
    forall x | x in Elems(cells) - {cells[i]}
      ensures x in cells'
    {
      var j :| 0 <= j < |cells| && cells[j] == x;
      assert j != i && cells'[j] == x;
    }
    forall x | x in cells'
      ensures x in (Elems(cells) - {cells[i]}) + {c}
    {
      var j :| 0 <= j < |cells'| && cells'[j] == x;
      if j != i {
        assert cells[j] == x && cells[j] != cells[i];
      }
    }
    assert cells'[i] == c;
    assert lookup'.Keys == (lookup.Keys - {cells[i]}) + {c};
    assert lookup'.Keys == Elems(cells');
    forall j | 0 <= j < |cells'|
      ensures cells'[j] in lookup' && lookup'[cells'[j]] == actors[j]
    {
      if j != i {
        assert cells[j] != cells[i] && cells[j] in lookup;
      }
    }
  }

  /**
   * `Step`'s re-keying keeps `m_lookup` the occupancy dictionary: the actor
   * at `i` steps against the occupied cells and, when its position changed,
   * is moved in the dictionary from its old cell to its new one.
   */
  lemma KeyedTick(actors: seq<Actor>, states: seq<ActorState>, lookup: map<int, Actor>, t: Terrain, i: int, lookup': map<int, Actor>)
    requires Distinct(actors) && Keyed(actors, CellSeq(states, t), lookup) && 0 <= i < |states|
    requires var (s', changed) := Tick(states[i], lookup.Keys, t);
      lookup' == if changed && s'.pos != states[i].pos
        then (lookup - {t.GetIdxOf(states[i].pos)})[t.GetIdxOf(s'.pos) := actors[i]]
        else lookup
    ensures Keyed(actors, CellSeq(states[i := Tick(states[i], lookup.Keys, t).0], t), lookup')
  {
    var (s', changed) := Tick(states[i], lookup.Keys, t);
    var cells := CellSeq(states, t);
    TickMovesOnlyToFreeCells(states[i], lookup.Keys, t);
    CellSeqUpdate(states, i, s', t);
    if changed && s'.pos != states[i].pos {
      KeyedMove(actors, cells, lookup, i, t.GetIdxOf(s'.pos));
    } else {
      assert cells[i := t.GetIdxOf(s'.pos)] == cells;
    }
  }

  /**
   * One iteration of `Step`'s actor loop: ticking actor `i` against the
   * dictionary extends the reference pass `TickActors` by one actor, keeps
   * the dictionary keyed by the new cells, and appends the actor to the
   * change list exactly when it changed.
   */
  lemma TickLoopStep(actors: seq<Actor>, s0: seq<ActorState>, occ0: set<int>, t: Terrain, i: nat,
                     ss: seq<ActorState>, flags: seq<bool>, lookup: map<int, Actor>, lookup': map<int, Actor>)
    requires i < |actors| == |s0| && Distinct(actors)
    requires (ss, flags, lookup.Keys) == TickActors(s0, occ0, t, i)
    requires Keyed(actors, CellSeq(ss, t), lookup)
    requires var (s', changed) := Tick(ss[i], lookup.Keys, t);
      lookup' == if changed && s'.pos != ss[i].pos
        then (lookup - {t.GetIdxOf(ss[i].pos)})[t.GetIdxOf(s'.pos) := actors[i]]
        else lookup
    ensures var (s', changed) := Tick(ss[i], lookup.Keys, t);
      (ss[i := s'], flags + [changed], lookup'.Keys) == TickActors(s0, occ0, t, i + 1) &&
      Keyed(actors, CellSeq(ss[i := s'], t), lookup') &&
      Select(actors, flags + [changed]) == Select(actors, flags) + (if changed then [actors[i]] else [])
  {
    var (s', changed) := Tick(ss[i], lookup.Keys, t);
    TickActorsNext(s0, occ0, t, i);
    KeyedTick(actors, ss, lookup, t, i, lookup');
    SelectNext(actors, flags, changed);
    if changed && s'.pos != ss[i].pos {
      assert lookup'.Keys == (lookup.Keys - {t.GetIdxOf(ss[i].pos)}) + {t.GetIdxOf(s'.pos)};
    }
  }

  /**
   * `InMap` bounds the index, not the grid coordinates: on a 2 by 2 map the
   * cell `(-1, 1)`, left of the grid, has index 1, the last cell of row 0.
   * A rat at `x = 0` facing `-x` reads that cell as the one ahead.
   */
  lemma InMapWrapsRow()
    ensures var t := Terrain(2, [0, 0, 0, 0], [0, 0, 0, 0], []);
      InMap(ActorState(Vec3(-1, 1, 1), 2, None), t) && !t.InGrid(-1, 1) && t.GetIdx(-1, 1) == t.GetIdx(1, 0)
  {
  }

  lemma AllInMapCons(s: ActorState, states: seq<ActorState>, t: Terrain)
    requires InMap(s, t) && AllInMap(states, t)
    ensures AllInMap([s] + states, t)
  {
    assert forall j :: 1 <= j < |states| + 1 ==> ([s] + states)[j] == states[j - 1];
  }

  lemma AllInMapAdd(states: seq<ActorState>, t: Terrain, s: ActorState)
    requires AllInMap(states, t) && InMap(s, t)
    ensures AllInMap(states + [s], t)
  {
    assert forall j :: 0 <= j < |states| ==> (states + [s])[j] == states[j];
  }

  lemma AllInMapRemove(states: seq<ActorState>, t: Terrain, i: int)
    requires AllInMap(states, t) && 0 <= i < |states|
    ensures AllInMap(states[..i] + states[i + 1..], t)
  {
    var states' := states[..i] + states[i + 1..];
    assert forall k :: 0 <= k < |states'| ==> states'[k] == states[if k < i then k else k + 1];
  }
}
