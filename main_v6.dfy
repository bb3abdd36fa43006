/** The mobile agents of mainv6/mainV6.py.

    A terrain `etats_sol` covers a TAILLE_GRILLE × TAILLE_GRILLE grid with
    'S' and 'F' cells. A population `persos` maps agent ids to a row, a column
    and a health, "sain" or "infecte". One turn runs three phases in order,
    each on the result of the one before: every agent may move one cell
    (`deplacer_tous`), agents whose hitboxes meet pass on the infection, pair
    after pair, each infection visible to the later pairs (`gerer_collisions`),
    and each infected agent may die (`gerer_mortalite`).

    A Python dict remembers its insertion order, and `gerer_collisions` walks
    the pairs in that order; the model keeps it as the sequence `ordre`.
    Each random draw is supplied by an oracle keyed by the agent it is for. */
module Agents {
  import opened Grid

  /** Cells per side of the terrain. */
  const TAILLE_GRILLE := 15
  /** Agents placed by `starting_grid`. */
  const NB_PERSONNAGES := 10
  /** Agents infected at the start. */
  const NB_INFECTES_DEPART := 3

  /** The `directions` table the hitbox is built from: the agent's own cell,
      up, down, left, right. */
  const DIRECTIONS: seq<(int, int)> := [(0, 0), (-1, 0), (1, 0), (0, -1), (0, 1)]

  /** An agent's health. */
  datatype Sante = Sain | Infecte

  /** A terrain cell, 'S' or 'F'. */
  datatype Sol = S | F

  /** One entry of `persos`: `{'lig': .., 'col': .., 'etat': ..}`. */
  datatype Perso = Perso(lig: int, col: int, etat: Sante)

  /** The four moves `random.choice` picks from in `deplacer_tous`. */
  datatype Dir = Up | Down | Left | Right

  function Offset(d: Dir): (int, int)
  {
    match d
    case Up => (-1, 0)
    case Down => (1, 0)
    case Left => (0, -1)
    case Right => (0, 1)
  }

  /** Whether a cell lies on the terrain. */
  predicate InBounds(c: Coord)
  {
    0 <= c.0 < TAILLE_GRILLE && 0 <= c.1 < TAILLE_GRILLE
  }

  /** A cell on the terrain: what `random.randint(0, TAILLE_GRILLE-1)` twice gives. */
  type Cell = c: Coord | InBounds(c) witness (0, 0)

  function Pos(p: Perso): Coord
  {
    (p.lig, p.col)
  }

  function Abs(x: int): nat
  {
    if x < 0 then -x else x
  }

  /** The Manhattan distance between two cells. */
  function Dist(a: Coord, b: Coord): nat
  {
    Abs(a.0 - b.0) + Abs(a.1 - b.1)
  }

  // ---------------------------------------------------------------------------
  // Hitboxes and collisions

  /** The cells that entries `k..` of the `directions` table give around `o`,
      dropping those off the terrain, in table order. */
  function HitboxFrom(o: Coord, k: nat): seq<Coord>
    requires k <= |DIRECTIONS|
    decreases |DIRECTIONS| - k
  {
    if k == |DIRECTIONS| then []
    else
      var c := Shift(o, DIRECTIONS[k]);
      (if InBounds(c) then [c] else []) + HitboxFrom(o, k + 1)
  }

  lemma {:induction false} HitboxFromCells(o: Coord, k: nat)
    requires k <= |DIRECTIONS|
    ensures forall c :: c in HitboxFrom(o, k) <==> InBounds(c) && exists d :: k <= d < |DIRECTIONS| && c == Shift(o, DIRECTIONS[d])
    decreases |DIRECTIONS| - k
  {
    if k < |DIRECTIONS| {
      HitboxFromCells(o, k + 1);
    }
  }

  /** The entries of the `directions` table are exactly the offsets of
      length at most one. */
  lemma NearCells(o: Coord, c: Coord)
    ensures Dist(c, o) <= 1 <==> exists d :: 0 <= d < |DIRECTIONS| && c == Shift(o, DIRECTIONS[d])
  {
    if Dist(c, o) <= 1 {
      var d := if c == o then 0
               else if c.0 < o.0 then 1
               else if c.0 > o.0 then 2
               else if c.1 < o.1 then 3
               else 4;
      assert c == Shift(o, DIRECTIONS[d]);
    }
  }

  /** `obtenir_hitbox` for an agent at cell `o`: the cells the `directions`
      table gives around it, those that lie on the terrain. */
  function Hitbox(o: Coord): seq<Coord>
  {
    HitboxFrom(o, 0)
  }

  /** The hitbox holds the agent's own cell and its four axis neighbours,
      those that lie on the terrain, and nothing else. */
  lemma HitboxCells(o: Coord)
    ensures forall c :: c in Hitbox(o) <==> InBounds(c) && Dist(c, o) <= 1
  {
    HitboxFromCells(o, 0);
    forall c ensures c in Hitbox(o) <==> InBounds(c) && Dist(c, o) <= 1 {
      NearCells(o, c);
    }
  }

  /** `verifier_collision`: whether the hitboxes of the two agents share a cell. */
  predicate Collision(p: Perso, q: Perso)
  {
    Meets(Pos(p), Pos(q))
  }

  /** Whether the hitboxes around two cells share a cell. */
  predicate Meets(a: Coord, b: Coord)
  {
    !((set c | c in Hitbox(a)) !! (set c | c in Hitbox(b)))
  }

  /** Collision does not depend on the order of the two agents. */
  lemma CollisionSymmetric(p: Perso, q: Perso)
    ensures Collision(p, q) == Collision(q, p)
  {
  }

  /** Two hitboxes meet exactly when some cell lies in both. */
  lemma CollisionAt(p: Perso, q: Perso, c: Coord)
    requires c in Hitbox(Pos(p)) && c in Hitbox(Pos(q))
    ensures Collision(p, q)
  {
    assert c in (set c | c in Hitbox(Pos(p))) * (set c | c in Hitbox(Pos(q)));
  }

  /** Two cells next to a common cell are at most two steps apart. */
  lemma Triangle(a: Coord, b: Coord, c: Coord)
    requires Dist(c, a) <= 1 && Dist(c, b) <= 1
    ensures Dist(a, b) <= 2
  {
  }

  /** A cell of a hitbox is next to its centre. */
  lemma HitboxNear(o: Coord, c: Coord)
    requires c in Hitbox(o)
    ensures Dist(c, o) <= 1
  {
    HitboxCells(o);
  }

  /** Two agents on the terrain collide exactly when their cells are at most
      two axis steps apart. */
  lemma CollisionIffClose(p: Perso, q: Perso)
    requires InBounds(Pos(p)) && InBounds(Pos(q))
    ensures Collision(p, q) <==> Dist(Pos(p), Pos(q)) <= 2
  {
    if Dist(Pos(p), Pos(q)) <= 2 {
      CloseCollide(p, q);
    }
    CollideClose(p, q);
  }

  lemma CloseCollide(p: Perso, q: Perso)
    requires InBounds(Pos(p)) && InBounds(Pos(q)) && Dist(Pos(p), Pos(q)) <= 2
    ensures Collision(p, q)
  {
    var c := MeetingCell(Pos(p), Pos(q));
    HitboxCells(Pos(p));
    HitboxCells(Pos(q));
    CollisionAt(p, q, c);
  }

  lemma CollideClose(p: Perso, q: Perso)
    ensures Collision(p, q) ==> Dist(Pos(p), Pos(q)) <= 2
  {
    if Collision(p, q) {
      var c :| c in (set c | c in Hitbox(Pos(p))) && c in (set c | c in Hitbox(Pos(q)));
      HitboxNear(Pos(p), c);
      HitboxNear(Pos(q), c);
      Triangle(Pos(p), Pos(q), c);
    }
  }

  /** A cell of the terrain next to both of two cells at most two steps
      apart: one step from the first towards the second. */
  function MeetingCell(a: Coord, b: Coord): (c: Coord)
    requires InBounds(a) && InBounds(b) && Dist(a, b) <= 2
    ensures InBounds(c) && Dist(c, a) <= 1 && Dist(c, b) <= 1
  {
    if a.0 < b.0 then (a.0 + 1, a.1)
    else if a.0 > b.0 then (a.0 - 1, a.1)
    else if a.1 < b.1 then (a.0, a.1 + 1)
    else if a.1 > b.1 then (a.0, a.1 - 1)
    else a
  }

  // ---------------------------------------------------------------------------
  // The single-agent operations

  /** `infecter_personnage`: the agent becomes infected; an unknown id changes
      nothing. */
  function Infect(m: map<int, Perso>, id: int): (r: map<int, Perso>)
    ensures r.Keys == m.Keys
    ensures id in m ==> r[id] == Perso(m[id].lig, m[id].col, Infecte)
    ensures forall k :: k in m && k != id ==> r[k] == m[k]
    ensures id !in m ==> r == m
  {
    if id in m then m[id := m[id].(etat := Infecte)] else m
  }

  /** `tuer_personnage`: the agent leaves the population; an unknown id changes
      nothing. */
  function Kill(m: map<int, Perso>, id: int): (r: map<int, Perso>)
    ensures r.Keys == m.Keys - {id}
    ensures forall k :: k in r ==> r[k] == m[k]
    ensures id !in m ==> r == m
  {
    m - {id}
  }

  /** `s` without the occurrences of `x`: the key order of a dict after `del`. */
  function Without(s: seq<int>, x: int): seq<int>
  {
    if s == [] then [] else (if s[0] == x then [] else [s[0]]) + Without(s[1..], x)
  }

  /** `Without` keeps every element but `x`. */
  lemma {:induction false} WithoutElems(s: seq<int>, x: int)
    ensures forall k :: k in Without(s, x) <==> k in s && k != x
  {
    if s != [] {
      WithoutElems(s[1..], x);
      assert s == [s[0]] + s[1..];
    }
  }

  /** A sequence with no repeated element. */
  predicate Distinct(s: seq<int>)
  {
    forall i, j :: 0 <= i < j < |s| ==> s[i] != s[j]
  }

  /** In a sequence without repeats, an element does not occur before its own index. */
  lemma DistinctPrefix(s: seq<int>, i: nat)
    requires Distinct(s) && i < |s|
    ensures s[i] !in s[..i]
  {
    assert forall k :: 0 <= k < i ==> s[..i][k] == s[k];
  }

  lemma {:induction false} WithoutDistinct(s: seq<int>, x: int)
    requires Distinct(s)
    ensures Distinct(Without(s, x))
  {
    if s != [] {
      WithoutDistinct(s[1..], x);
      WithoutElems(s[1..], x);
      var t := Without(s[1..], x);
      assert s[0] !in t by {
        assert forall k :: 0 < k < |s| ==> s[k] != s[0];
      }
    }
  }

  lemma {:induction false} WithoutAppend(a: seq<int>, b: seq<int>, x: int)
    ensures Without(a + b, x) == Without(a, x) + Without(b, x)
  {
    if a == [] {
      assert a + b == b;
    } else {
      WithoutAppend(a[1..], b, x);
      assert (a + b)[0] == a[0];
      assert (a + b)[1..] == a[1..] + b;
      var h := if a[0] == x then [] else [a[0]];
      calc {
        Without(a + b, x);
        h + Without(a[1..] + b, x);
        h + (Without(a[1..], x) + Without(b, x));
        (h + Without(a[1..], x)) + Without(b, x);
      }
    }
  }

  lemma {:induction false} WithoutAbsent(s: seq<int>, x: int)
    requires x !in s
    ensures Without(s, x) == s
  {
    if s != [] {
      WithoutAbsent(s[1..], x);
      assert s == [s[0]] + s[1..];
    }
  }

  // ---------------------------------------------------------------------------
  // Phase 1: movement

  /** One agent's turn in `deplacer_tous`: when its movement draw `moves`
      succeeds it tries the move `dir`, and stays put when that would leave the
      terrain. */
  function MoveOne(p: Perso, moves: bool, dir: Dir): Perso
  {
    if moves then
      var target := Shift(Pos(p), Offset(dir));
      if InBounds(target) then p.(lig := target.0, col := target.1) else p
    else p
  }

  /** A turn keeps the agent's health and moves it by at most one axis step,
      never off the terrain; it moves exactly when the draw succeeds and the
      target cell is on the terrain. */
  lemma MoveOneShape(p: Perso, moves: bool, dir: Dir)
    ensures MoveOne(p, moves, dir).etat == p.etat
    ensures Dist(Pos(MoveOne(p, moves, dir)), Pos(p)) <= 1
    ensures MoveOne(p, moves, dir).lig == p.lig || MoveOne(p, moves, dir).col == p.col
    ensures InBounds(Pos(p)) ==> InBounds(Pos(MoveOne(p, moves, dir)))
    ensures moves && InBounds(Shift(Pos(p), Offset(dir))) ==> Pos(MoveOne(p, moves, dir)) == Shift(Pos(p), Offset(dir))
    ensures !(moves && InBounds(Shift(Pos(p), Offset(dir)))) ==> MoveOne(p, moves, dir) == p
  {
  }

  /** The population after `deplacer_tous`: agent `id` uses the draws
      `move(id)` and `dir(id)`. */
  function Moved(m: map<int, Perso>, move: int -> bool, dir: int -> Dir): map<int, Perso>
  {
    map id | id in m :: MoveOne(m[id], move(id), dir(id))
  }

  /** The population part-way through `deplacer_tous`: the agents in `done`
      have taken their turn, the others not yet. */
  function PartMoved(m: map<int, Perso>, done: seq<int>, move: int -> bool, dir: int -> Dir): map<int, Perso>
  {
    map id | id in m :: if id in done then MoveOne(m[id], move(id), dir(id)) else m[id]
  }

  /** Before the loop nobody has moved, and once every agent has had its turn
      the population is `Moved`. */
  lemma PartMovedBounds(m: map<int, Perso>, ordre: seq<int>, move: int -> bool, dir: int -> Dir)
    requires forall id :: id in m ==> id in ordre
    ensures PartMoved(m, [], move, dir) == m
    ensures PartMoved(m, ordre, move, dir) == Moved(m, move, dir)
  {
    var none: seq<int> := [];
    assert forall id :: id !in none;
    assert PartMoved(m, none, move, dir) == m;
    var all := PartMoved(m, ordre, move, dir);
    forall id | id in m ensures all[id] == Moved(m, move, dir)[id] {
      assert id in ordre;
    }
    assert all.Keys == Moved(m, move, dir).Keys;
  }

  /** One more agent takes its turn. */
  lemma PartMovedStep(m: map<int, Perso>, done: seq<int>, pid: int, move: int -> bool, dir: int -> Dir)
    requires pid in m && pid !in done
    ensures PartMoved(m, done, move, dir)[pid := MoveOne(m[pid], move(pid), dir(pid))] == PartMoved(m, done + [pid], move, dir)
    ensures PartMoved(m, done, move, dir)[pid] == m[pid]
  {
    forall id ensures id in done + [pid] <==> id in done || id == pid {
    }
  }

  /** The turn of the agent at index `i` of a key order without repeats. */
  lemma PartMovedNext(m: map<int, Perso>, pids: seq<int>, i: nat, move: int -> bool, dir: int -> Dir)
    requires Distinct(pids) && (forall id :: id in pids <==> id in m) && i < |pids|
    ensures pids[i] in PartMoved(m, pids[..i], move, dir)
    ensures PartMoved(m, pids[..i], move, dir)[pids[i] := MoveOne(PartMoved(m, pids[..i], move, dir)[pids[i]], move(pids[i]), dir(pids[i]))]
            == PartMoved(m, pids[..i + 1], move, dir)
  {
    var pid := pids[i];
    DistinctPrefix(pids, i);
    PartMovedStep(m, pids[..i], pid, move, dir);
    assert pids[..i + 1] == pids[..i] + [pid];
  }

  /** Every agent lies on the terrain. */
  ghost predicate AllInBounds(m: map<int, Perso>)
  {
    forall id :: id in m ==> InBounds(Pos(m[id]))
  }

  /** Movement keeps the ids and every agent's health, keeps agents on the
      terrain, and moves each by at most one axis step. */
  lemma MovedKeepsPopulation(m: map<int, Perso>, move: int -> bool, dir: int -> Dir)
    requires AllInBounds(m)
    ensures Moved(m, move, dir).Keys == m.Keys
    ensures AllInBounds(Moved(m, move, dir))
    ensures forall id :: id in m ==>
              Moved(m, move, dir)[id].etat == m[id].etat && Dist(Pos(Moved(m, move, dir)[id]), Pos(m[id])) <= 1
  {
    var r := Moved(m, move, dir);
    forall id | id in m
      ensures InBounds(Pos(r[id])) && r[id].etat == m[id].etat && Dist(Pos(r[id]), Pos(m[id])) <= 1
    {
      assert r[id] == MoveOne(m[id], move(id), dir(id));
      MoveOneShape(m[id], move(id), dir(id));
    }
  }

  /** Moving keeps the key order listing the agents, and keeps them on the terrain. */
  lemma MovedKeepsOrder(m: map<int, Perso>, ordre: seq<int>, move: int -> bool, dir: int -> Dir)
    requires (forall id :: id in ordre <==> id in m) && AllInBounds(m)
    ensures (forall id :: id in ordre <==> id in Moved(m, move, dir)) && AllInBounds(Moved(m, move, dir))
  {
    MovedKeepsPopulation(m, move, dir);
  }

  // ---------------------------------------------------------------------------
  // Phase 2: collisions

  /** One pair of `gerer_collisions`: when both agents are still there, exactly
      one of them is infected and their hitboxes meet, both become infected. */
  function CollideOne(m: map<int, Perso>, id1: int, id2: int): map<int, Perso>
  {
    if id1 in m && id2 in m && (m[id1].etat == Infecte) != (m[id2].etat == Infecte) && Collision(m[id1], m[id2])
    then Infect(Infect(m, id1), id2)
    else m
  }

  /** The pairs (i, i+1), …, (i, j-1) of the pair loop, applied in order. */
  function RowPass(m: map<int, Perso>, pids: seq<int>, i: nat, j: nat): map<int, Perso>
    requires i < |pids| && j <= |pids|
    decreases j
  {
    if j <= i + 1 then m else CollideOne(RowPass(m, pids, i, j - 1), pids[i], pids[j - 1])
  }

  /** The population after the rows 0, …, i-1 of the pair loop over `pids`. */
  function Collisions(m: map<int, Perso>, pids: seq<int>, i: nat): map<int, Perso>
    requires i <= |pids|
  {
    if i == 0 then m else RowPass(Collisions(m, pids, i - 1), pids, i - 1, |pids|)
  }

  /** The population after the whole of `gerer_collisions`. */
  function Collided(m: map<int, Perso>, pids: seq<int>): map<int, Perso>
  {
    Collisions(m, pids, |pids|)
  }

  /** What collisions can do to a population: nobody is added or removed,
      nobody moves, and nobody infected becomes healthy. */
  ghost predicate Evolves(m: map<int, Perso>, m': map<int, Perso>)
  {
    && m'.Keys == m.Keys
    && forall id :: id in m ==> Pos(m'[id]) == Pos(m[id]) && (m[id].etat == Infecte ==> m'[id].etat == Infecte)
  }

  /** Every agent that is healthy in `m` and infected in `m'` has a hitbox
      meeting that of another agent infected in `m'`. The partner is only
      known to be infected at the end, so this alone admits circular
      justifications; `CollideOneInfects` states that the partner of a single
      pair is infected at that moment, and `CollisionsRooted` traces every
      infection back to an agent infected before the pair loop. */
  ghost predicate Justified(m: map<int, Perso>, m': map<int, Perso>)
    requires m'.Keys == m.Keys
  {
    forall id :: id in m && m[id].etat == Sain && m'[id].etat == Infecte ==>
      exists o :: o in m' && o != id && m'[o].etat == Infecte && Collision(m'[id], m'[o])
  }

  /** A single pair only infects a healthy agent whose hitbox meets that of
      the other agent of the pair, which is infected at that moment. */
  lemma CollideOneInfects(m: map<int, Perso>, id1: int, id2: int)
    ensures Evolves(m, CollideOne(m, id1, id2))
    ensures forall id :: id in m && m[id].etat == Sain && CollideOne(m, id1, id2)[id].etat == Infecte ==>
              (id == id1 && id2 in m && id2 != id && m[id2].etat == Infecte && Collision(m[id], m[id2]))
              || (id == id2 && id1 in m && id1 != id && m[id1].etat == Infecte && Collision(m[id1], m[id]))
    ensures Justified(m, CollideOne(m, id1, id2))
  {
    CollideOneEvolves(m, id1, id2);
    CollideOneJustified(m, id1, id2);
  }

  /** A pair that collides changes only health, and only to infected. */
  lemma CollideOneEvolves(m: map<int, Perso>, id1: int, id2: int)
    ensures Evolves(m, CollideOne(m, id1, id2))
    ensures forall id :: id in m && m[id].etat == Sain && CollideOne(m, id1, id2)[id].etat == Infecte ==>
              (id == id1 && id2 in m && id2 != id && m[id2].etat == Infecte && Collision(m[id], m[id2]))
              || (id == id2 && id1 in m && id1 != id && m[id1].etat == Infecte && Collision(m[id1], m[id]))
  {
    var r := CollideOne(m, id1, id2);
    if r == m {
      JustifiedRefl(m);
    } else {
      assert r == Infect(Infect(m, id1), id2);
      assert r.Keys == m.Keys;
      assert forall id :: id in m ==> Pos(r[id]) == Pos(m[id]);
    }
  }

  lemma CollideOneJustified(m: map<int, Perso>, id1: int, id2: int)
    ensures CollideOne(m, id1, id2).Keys == m.Keys
    ensures Justified(m, CollideOne(m, id1, id2))
  {
    var r := CollideOne(m, id1, id2);
    if r == m {
      JustifiedRefl(m);
    } else {
      assert id1 in m && id2 in m && (m[id1].etat == Infecte) != (m[id2].etat == Infecte);
      assert Collision(m[id1], m[id2]);
      CollisionSymmetric(m[id1], m[id2]);
      assert r == Infect(Infect(m, id1), id2);
      assert r.Keys == m.Keys;
      assert Pos(r[id1]) == Pos(m[id1]) && Pos(r[id2]) == Pos(m[id2]);
      assert r[id1].etat == Infecte && r[id2].etat == Infecte;
      assert Collision(r[id1], r[id2]) && Collision(r[id2], r[id1]);
      forall id | id in m && m[id].etat == Sain && r[id].etat == Infecte
        ensures exists o :: o in r && o != id && r[o].etat == Infecte && Collision(r[id], r[o])
      {
        if id == id1 {
          assert id2 in r && id2 != id && r[id2].etat == Infecte && Collision(r[id], r[id2]);
        } else {
          assert id1 in r && id1 != id && r[id1].etat == Infecte && Collision(r[id], r[id1]);
        }
      }
    }
  }

  /** Collisions seen at one moment are still collisions later, since
      positions do not change. */
  lemma JustifiedTrans(m1: map<int, Perso>, m2: map<int, Perso>, m3: map<int, Perso>)
    requires Evolves(m1, m2) && Evolves(m2, m3)
    requires Justified(m1, m2) && Justified(m2, m3)
    ensures Evolves(m1, m3) && Justified(m1, m3)
  {
    forall id | id in m1 && m1[id].etat == Sain && m3[id].etat == Infecte
      ensures exists o :: o in m3 && o != id && m3[o].etat == Infecte && Collision(m3[id], m3[o])
    {
      if m2[id].etat == Infecte {
        var o :| o in m2 && o != id && m2[o].etat == Infecte && Collision(m2[id], m2[o]);
        assert Pos(m3[id]) == Pos(m2[id]) && Pos(m3[o]) == Pos(m2[o]);
      }
    }
  }

  lemma JustifiedRefl(m: map<int, Perso>)
    ensures Evolves(m, m) && Justified(m, m)
  {
  }

  lemma {:induction false} RowPassInfects(m: map<int, Perso>, pids: seq<int>, i: nat, j: nat)
    requires i < |pids| && j <= |pids|
    ensures Evolves(m, RowPass(m, pids, i, j)) && Justified(m, RowPass(m, pids, i, j))
    decreases j
  {
    if j <= i + 1 {
      JustifiedRefl(m);
    } else {
      var before := RowPass(m, pids, i, j - 1);
      RowPassInfects(m, pids, i, j - 1);
      CollideOneInfects(before, pids[i], pids[j - 1]);
      JustifiedTrans(m, before, RowPass(m, pids, i, j));
    }
  }

  /** The pair loop never adds or removes an agent, never moves one, never
      heals one, and infects a healthy agent only when its hitbox meets that of
      another agent infected at the end of the loop. */
  lemma {:induction false} CollisionsInfect(m: map<int, Perso>, pids: seq<int>, i: nat)
    requires i <= |pids|
    ensures Evolves(m, Collisions(m, pids, i)) && Justified(m, Collisions(m, pids, i))
  {
    if i == 0 {
      JustifiedRefl(m);
    } else {
      var before := Collisions(m, pids, i - 1);
      var after := RowPass(before, pids, i - 1, |pids|);
      assert Collisions(m, pids, i) == after;
      CollisionsInfect(m, pids, i - 1);
      RowPassInfects(before, pids, i - 1, |pids|);
      JustifiedTrans(m, before, after);
    }
  }

  /** A chain of contagion in `m`: it starts at an agent infected in `m`, and
      the hitboxes of every two consecutive agents of it meet. */
  ghost predicate Chain(m: map<int, Perso>, ch: seq<int>)
  {
    && |ch| >= 1
    && (forall k :: 0 <= k < |ch| ==> ch[k] in m)
    && m[ch[0]].etat == Infecte
    && (forall k :: 0 <= k < |ch| - 1 ==> Collision(m[ch[k]], m[ch[k + 1]]))
  }

  /** Agent `id` ends a chain of contagion in `m`. */
  ghost predicate Reached(m: map<int, Perso>, id: int)
  {
    exists ch :: Chain(m, ch) && ch[|ch| - 1] == id
  }

  /** Every agent infected in `m'` ends a chain of contagion in `m`. */
  ghost predicate Rooted(m: map<int, Perso>, m': map<int, Perso>)
  {
    forall id :: id in m' && m'[id].etat == Infecte ==> Reached(m, id)
  }

  /** A chain grows by one agent whose hitbox meets that of its last agent. */
  lemma ChainExtend(m: map<int, Perso>, ch: seq<int>, id: int)
    requires Chain(m, ch) && id in m && Collision(m[ch[|ch| - 1]], m[id])
    ensures Chain(m, ch + [id]) && (ch + [id])[|ch|] == id
  {
    var ch' := ch + [id];
    forall k | 0 <= k < |ch'| - 1
      ensures Collision(m[ch'[k]], m[ch'[k + 1]])
    {
      if k < |ch| - 1 {
        assert ch'[k] == ch[k] && ch'[k + 1] == ch[k + 1];
      }
    }
  }

  lemma EvolvesTrans(m1: map<int, Perso>, m2: map<int, Perso>, m3: map<int, Perso>)
    requires Evolves(m1, m2) && Evolves(m2, m3)
    ensures Evolves(m1, m3)
  {
  }

  /** One pair keeps every infected agent at the end of a chain that starts
      in `m0`, the population before the pair loop. */
  lemma CollideOneRooted(m0: map<int, Perso>, m: map<int, Perso>, id1: int, id2: int)
    requires Evolves(m0, m) && Rooted(m0, m)
    ensures Evolves(m0, CollideOne(m, id1, id2)) && Rooted(m0, CollideOne(m, id1, id2))
  {
    var r := CollideOne(m, id1, id2);
    CollideOneEvolves(m, id1, id2);
    EvolvesTrans(m0, m, r);
    forall id | id in r && r[id].etat == Infecte
      ensures Reached(m0, id)
    {
      if m[id].etat == Sain {
        var o := if id == id1 then id2 else id1;
        assert o in m && m[o].etat == Infecte;
        assert Collision(m[o], m[id]) by {
          CollisionSymmetric(m[o], m[id]);
        }
        assert Reached(m0, o);
        var ch :| Chain(m0, ch) && ch[|ch| - 1] == o;
        assert Pos(m0[o]) == Pos(m[o]) && Pos(m0[id]) == Pos(m[id]);
        ChainExtend(m0, ch, id);
      }
    }
  }

  lemma {:induction false} RowPassRooted(m0: map<int, Perso>, m: map<int, Perso>, pids: seq<int>, i: nat, j: nat)
    requires i < |pids| && j <= |pids|
    requires Evolves(m0, m) && Rooted(m0, m)
    ensures Evolves(m0, RowPass(m, pids, i, j)) && Rooted(m0, RowPass(m, pids, i, j))
    decreases j
  {
    if j > i + 1 {
      RowPassRooted(m0, m, pids, i, j - 1);
      CollideOneRooted(m0, RowPass(m, pids, i, j - 1), pids[i], pids[j - 1]);
    }
  }

  /** Each infected agent ends a chain of length one. */
  lemma RootedRefl(m: map<int, Perso>)
    ensures Evolves(m, m) && Rooted(m, m)
  {
    forall id | id in m && m[id].etat == Infecte
      ensures Reached(m, id)
    {
      assert Chain(m, [id]);
    }
  }

  /** After the first `i` rows of the pair loop, every infected agent is
      reached from an agent infected before the loop through a chain of
      agents whose hitboxes meet pairwise, in their (unchanged) positions. */
  lemma {:induction false} CollisionsRooted(m: map<int, Perso>, pids: seq<int>, i: nat)
    requires i <= |pids|
    ensures Evolves(m, Collisions(m, pids, i)) && Rooted(m, Collisions(m, pids, i))
  {
    if i == 0 {
      RootedRefl(m);
    } else {
      CollisionsRooted(m, pids, i - 1);
      RowPassRooted(m, Collisions(m, pids, i - 1), pids, i - 1, |pids|);
    }
  }

  /** Without an infected agent, the pair loop changes nothing. */
  lemma {:induction false} NoInfectedNoCollision(m: map<int, Perso>, pids: seq<int>, i: nat)
    requires i <= |pids|
    requires forall id :: id in m ==> m[id].etat == Sain
    ensures Collisions(m, pids, i) == m
  {
    if i > 0 {
      NoInfectedNoCollision(m, pids, i - 1);
      NoInfectedRow(m, pids, i - 1, |pids|);
    }
  }

  lemma {:induction false} NoInfectedRow(m: map<int, Perso>, pids: seq<int>, i: nat, j: nat)
    requires i < |pids| && j <= |pids|
    requires forall id :: id in m ==> m[id].etat == Sain
    ensures RowPass(m, pids, i, j) == m
    decreases j
  {
    if j > i + 1 {
      NoInfectedRow(m, pids, i, j - 1);
    }
  }

  /** Infections inside the pair loop are visible to the later pairs: with
      agent 1 infected at (0, 0), agent 2 at (0, 2) and agent 3 at (0, 4),
      agent 1 infects agent 2 (pair (1, 2)), and agent 2 then infects agent 3
      (pair (2, 3)), though agents 1 and 3 do not collide. */
  lemma ChainScenario()
    ensures var m := map[1 := Perso(0, 0, Infecte), 2 := Perso(0, 2, Sain), 3 := Perso(0, 4, Sain)];
            Collided(m, [1, 2, 3]) == map[1 := Perso(0, 0, Infecte), 2 := Perso(0, 2, Infecte), 3 := Perso(0, 4, Infecte)]
  {
    var m := map[1 := Perso(0, 0, Infecte), 2 := Perso(0, 2, Sain), 3 := Perso(0, 4, Sain)];
    var m1 := map[1 := Perso(0, 0, Infecte), 2 := Perso(0, 2, Infecte), 3 := Perso(0, 4, Sain)];
    var m2 := map[1 := Perso(0, 0, Infecte), 2 := Perso(0, 2, Infecte), 3 := Perso(0, 4, Infecte)];
    var pids := [1, 2, 3];
    ChainPairs(m, m1, m2);
    assert RowPass(m, pids, 0, 3) == m1 by {
      assert RowPass(m, pids, 0, 1) == m;
      assert RowPass(m, pids, 0, 2) == m1;
    }
    assert Collisions(m, pids, 1) == m1 by {
      assert Collisions(m, pids, 0) == m;
    }
    assert RowPass(m1, pids, 1, 3) == m2 by {
      assert RowPass(m1, pids, 1, 2) == m1;
    }
    assert Collisions(m, pids, 2) == m2;
    assert RowPass(m2, pids, 2, 3) == m2;
  }

  /** The three pairs of the chain scenario, one at a time. */
  lemma ChainPairs(m: map<int, Perso>, m1: map<int, Perso>, m2: map<int, Perso>)
    requires m == map[1 := Perso(0, 0, Infecte), 2 := Perso(0, 2, Sain), 3 := Perso(0, 4, Sain)]
    requires m1 == map[1 := Perso(0, 0, Infecte), 2 := Perso(0, 2, Infecte), 3 := Perso(0, 4, Sain)]
    requires m2 == map[1 := Perso(0, 0, Infecte), 2 := Perso(0, 2, Infecte), 3 := Perso(0, 4, Infecte)]
    ensures CollideOne(m, 1, 2) == m1
    ensures CollideOne(m1, 1, 3) == m1
    ensures CollideOne(m1, 2, 3) == m2
  {
    ChainInfections(m, m1, m2);
    PairClose(m, 1, 2);
    PairFar(m1, 1, 3);
    PairClose(m1, 2, 3);
  }

  lemma ChainInfections(m: map<int, Perso>, m1: map<int, Perso>, m2: map<int, Perso>)
    requires m == map[1 := Perso(0, 0, Infecte), 2 := Perso(0, 2, Sain), 3 := Perso(0, 4, Sain)]
    requires m1 == map[1 := Perso(0, 0, Infecte), 2 := Perso(0, 2, Infecte), 3 := Perso(0, 4, Sain)]
    requires m2 == map[1 := Perso(0, 0, Infecte), 2 := Perso(0, 2, Infecte), 3 := Perso(0, 4, Infecte)]
    ensures Infect(Infect(m, 1), 2) == m1 && Infect(Infect(m1, 2), 3) == m2
  {
  }

  /** A pair of agents on the terrain with different healths, at most two
      axis steps apart: both end up infected. */
  lemma PairClose(m: map<int, Perso>, id1: int, id2: int)
    requires id1 in m && id2 in m && InBounds(Pos(m[id1])) && InBounds(Pos(m[id2]))
    requires (m[id1].etat == Infecte) != (m[id2].etat == Infecte)
    requires Dist(Pos(m[id1]), Pos(m[id2])) <= 2
    ensures CollideOne(m, id1, id2) == Infect(Infect(m, id1), id2)
  {
    CollisionIffClose(m[id1], m[id2]);
  }

  /** A pair of agents on the terrain more than two axis steps apart: the
      pair changes nothing. */
  lemma PairFar(m: map<int, Perso>, id1: int, id2: int)
    requires id1 in m && id2 in m && InBounds(Pos(m[id1])) && InBounds(Pos(m[id2]))
    requires Dist(Pos(m[id1]), Pos(m[id2])) > 2
    ensures CollideOne(m, id1, id2) == m
  {
    CollisionIffClose(m[id1], m[id2]);
  }

  // ---------------------------------------------------------------------------
  // Phase 3: mortality

  /** Whether agent `id` dies in `gerer_mortalite`: it is infected and its
      death draw `death(id)` succeeds. */
  predicate Dies(m: map<int, Perso>, id: int, death: int -> bool)
  {
    id in m && m[id].etat == Infecte && death(id)
  }

  /** The population after `gerer_mortalite`. */
  function Mortality(m: map<int, Perso>, death: int -> bool): map<int, Perso>
  {
    map id | id in m && !Dies(m, id, death) :: m[id]
  }

  /** Mortality only removes agents, never changes one that stays, never
      removes a healthy one, and removes exactly the infected ones whose draw
      succeeds. */
  lemma MortalityShape(m: map<int, Perso>, death: int -> bool)
    ensures Mortality(m, death).Keys <= m.Keys && |Mortality(m, death)| <= |m|
    ensures forall id :: id in Mortality(m, death) ==> Mortality(m, death)[id] == m[id]
    ensures forall id :: id in m && m[id].etat == Sain ==> id in Mortality(m, death)
    ensures forall id :: id in m ==> (id !in Mortality(m, death) <==> m[id].etat == Infecte && death(id))
  {
    SubsetCard(Mortality(m, death).Keys, m.Keys);
  }

  lemma SubsetCard(a: set<int>, b: set<int>)
    requires a <= b
    ensures |a| <= |b|
  {
    assert b == a + (b - a);
  }

  /** The population part-way through `gerer_mortalite`: the agents in
      `done` have had their death draw. */
  function PartMortality(m: map<int, Perso>, done: seq<int>, death: int -> bool): map<int, Perso>
  {
    map id | id in m && !(id in done && Dies(m, id, death)) :: m[id]
  }

  /** Before the loop nobody has died, and once every agent has had its draw
      the population is `Mortality`. */
  lemma PartMortalityBounds(m: map<int, Perso>, tous: seq<int>, death: int -> bool)
    requires forall id :: id in m ==> id in tous
    ensures PartMortality(m, [], death) == m
    ensures PartMortality(m, tous, death) == Mortality(m, death)
  {
    var none: seq<int> := [];
    assert forall id :: id !in none;
    assert PartMortality(m, none, death) == m;
    var all := PartMortality(m, tous, death);
    forall id ensures id in all <==> id in Mortality(m, death) {
      if id in m {
        assert id in tous;
      }
    }
  }

  /** One more agent has its death draw: it leaves when it dies. */
  lemma PartMortalityStep(m: map<int, Perso>, done: seq<int>, pid: int, death: int -> bool)
    requires pid in m && pid !in done
    ensures pid in PartMortality(m, done, death) && PartMortality(m, done, death)[pid] == m[pid]
    ensures Dies(m, pid, death) ==> Kill(PartMortality(m, done, death), pid) == PartMortality(m, done + [pid], death)
    ensures !Dies(m, pid, death) ==> PartMortality(m, done, death) == PartMortality(m, done + [pid], death)
  {
    forall id ensures id in done + [pid] <==> id in done || id == pid {
    }
  }

  /** The key order after `gerer_mortalite`: the survivors, in their order. */
  function Survivors(s: seq<int>, m: map<int, Perso>, death: int -> bool): seq<int>
  {
    if s == [] then []
    else Survivors(s[..|s| - 1], m, death) + (if Dies(m, s[|s| - 1], death) then [] else [s[|s| - 1]])
  }

  lemma {:induction false} SurvivorsElems(s: seq<int>, m: map<int, Perso>, death: int -> bool)
    ensures forall k :: k in Survivors(s, m, death) <==> k in s && !Dies(m, k, death)
  {
    if s != [] {
      SurvivorsElems(s[..|s| - 1], m, death);
      assert s == s[..|s| - 1] + [s[|s| - 1]];
    }
  }

  // ---------------------------------------------------------------------------
  // The whole turn and the statistics

  /** The population after one call of `propagation`: nothing when it is
      empty, otherwise movement, then collisions in key order, then mortality. */
  function StepPersos(m: map<int, Perso>, ordre: seq<int>, move: int -> bool, dir: int -> Dir, death: int -> bool): map<int, Perso>
  {
    if m == map[] then m else Mortality(Collided(Moved(m, move, dir), ordre), death)
  }

  /** How many agents have health `e`: the counts of `maj_stats`. */
  function Count(m: map<int, Perso>, e: Sante): nat
  {
    |set id | id in m && m[id].etat == e|
  }

  /** Healthy plus infected is the number of living agents. */
  lemma CountsSum(m: map<int, Perso>)
    ensures Count(m, Sain) + Count(m, Infecte) == |m|
  {
    var s := set id | id in m && m[id].etat == Sain;
    var i := set id | id in m && m[id].etat == Infecte;
    assert m.Keys == s + i;
    assert s !! i;
  }

  /** A turn never adds an agent, keeps every agent on the terrain, never
      heals an infected agent, and leaves an empty population empty. */
  lemma StepShrinks(m: map<int, Perso>, ordre: seq<int>, move: int -> bool, dir: int -> Dir, death: int -> bool)
    requires AllInBounds(m)
    ensures StepPersos(m, ordre, move, dir, death).Keys <= m.Keys
    ensures |StepPersos(m, ordre, move, dir, death)| <= |m|
    ensures AllInBounds(StepPersos(m, ordre, move, dir, death))
    ensures forall id :: id in StepPersos(m, ordre, move, dir, death) && m[id].etat == Infecte ==>
              StepPersos(m, ordre, move, dir, death)[id].etat == Infecte
    ensures m == map[] ==> StepPersos(m, ordre, move, dir, death) == map[]
  {
    if m != map[] {
      var moved := Moved(m, move, dir);
      MovedKeepsPopulation(m, move, dir);
      CollisionsInfect(moved, ordre, |ordre|);
      var collided := Collided(moved, ordre);
      assert AllInBounds(collided) by {
        forall id | id in collided ensures InBounds(Pos(collided[id])) {
          assert Pos(collided[id]) == Pos(moved[id]);
        }
      }
      assert collided.Keys == m.Keys;
      MortalityShape(collided, death);
      var r := Mortality(collided, death);
      assert r.Keys <= m.Keys && |r| <= |m|;
      forall id | id in r && m[id].etat == Infecte ensures r[id].etat == Infecte {
        assert moved[id].etat == Infecte;
      }
    }
  }

  /** A lone infected agent whose death draw succeeds leaves an empty
      population after one turn. */
  lemma Depopulation(id: int, p: Perso, move: int -> bool, dir: int -> Dir, death: int -> bool)
    requires p.etat == Infecte && death(id)
    ensures StepPersos(map[id := p], [id], move, dir, death) == map[]
  {
    var m := map[id := p];
    var moved := Moved(m, move, dir);
    assert moved.Keys == {id} && moved[id].etat == Infecte;
    CollisionsInfect(moved, [id], 1);
    var collided := Collided(moved, [id]);
    assert collided.Keys == {id} && collided[id].etat == Infecte;
    assert Dies(collided, id, death);
  }

  /** The terrain `starting_grid` draws: a cell is 'S' when its draw succeeds. */
  function InitialTerrain(sol: Coord -> bool): map<Coord, Sol>
  {
    map c | c in Rect(TAILLE_GRILLE, TAILLE_GRILLE) :: if sol(c) then S else F
  }

  /** The canvas id of the k-th agent `starting_grid` creates, when the
      canvas hands out consecutive ids from `base`. */
  function IdOf(base: int, k: int): int
  {
    base + k
  }

  /** The first `n` agents of `starting_grid`, the k-th at cell `place(k)`,
      infected when k < `infected`. */
  function Placed(place: nat -> Cell, base: int, n: nat, infected: nat): map<int, Perso>
  {
    map k | 0 <= k < n :: IdOf(base, k) := Perso(place(k).0, place(k).1, if k < infected then Infecte else Sain)
  }

  /** The agents `starting_grid` creates: the k-th gets the canvas id
      `base + k` and the cell `place(k)`; the first
      min(NB_INFECTES_DEPART, NB_PERSONNAGES) of them are infected. */
  function InitialPersos(place: nat -> Cell, base: int): map<int, Perso>
  {
    Placed(place, base, NB_PERSONNAGES, Min(NB_INFECTES_DEPART, NB_PERSONNAGES))
  }

  function Min(a: int, b: int): int
  {
    if a < b then a else b
  }

  /** The ids `base`, …, `base + n - 1`. */
  function IdRange(base: int, n: nat): set<int>
  {
    set k | 0 <= k < n :: IdOf(base, k)
  }

  lemma {:induction false} IdRangeCard(base: int, n: nat)
    ensures |IdRange(base, n)| == n
  {
    if n == 0 {
      assert IdRange(base, 0) == {};
    } else {
      IdRangeCard(base, n - 1);
      assert IdRange(base, n) == IdRange(base, n - 1) + {IdOf(base, n - 1)};
    }
  }

  /** Who `Placed` holds and where. */
  lemma PlacedShape(place: nat -> Cell, base: int, n: nat, infected: nat)
    ensures Placed(place, base, n, infected).Keys == IdRange(base, n)
    ensures forall k :: 0 <= k < n ==> Placed(place, base, n, infected)[IdOf(base, k)]
                                         == Perso(place(k).0, place(k).1, if k < infected then Infecte else Sain)
  {
  }

  /** The ids of the first `n` agents in creation order. */
  function IdSeq(base: int, n: nat): (r: seq<int>)
    ensures |r| == n && forall k :: 0 <= k < n ==> r[k] == IdOf(base, k)
  {
    seq(n, k => IdOf(base, k))
  }

  /** The placed agents, listed in creation order, satisfy the invariant of
      the simulation object. */
  lemma PlacedValid(place: nat -> Cell, base: int, n: nat, infected: nat)
    ensures Distinct(IdSeq(base, n))
    ensures forall id :: id in IdSeq(base, n) <==> id in Placed(place, base, n, infected)
    ensures AllInBounds(Placed(place, base, n, infected))
  {
    var m := Placed(place, base, n, infected);
    forall id | id in m ensures InBounds(Pos(m[id])) {
      var k :| 0 <= k < n && id == IdOf(base, k);
      assert m[id] == Perso(place(k).0, place(k).1, if k < infected then Infecte else Sain);
    }
    forall id ensures id in IdSeq(base, n) <==> id in m {
      if id in m {
        var k :| 0 <= k < n && id == IdOf(base, k);
        assert IdSeq(base, n)[k] == id;
      }
    }
  }

  /** Placing agent `n` extends the population by one healthy agent. */
  lemma PlacedGrow(place: nat -> Cell, base: int, n: nat)
    ensures Placed(place, base, n + 1, 0) == Placed(place, base, n, 0)[IdOf(base, n) := Perso(place(n).0, place(n).1, Sain)]
  {
  }

  /** Infecting agent `i` of the placed agents extends the infected prefix. */
  lemma PlacedInfect(place: nat -> Cell, base: int, n: nat, i: nat)
    requires i < n
    ensures Infect(Placed(place, base, n, i), IdOf(base, i)) == Placed(place, base, n, i + 1)
  {
  }

  /** The infected ones among the placed agents are the first `infected`. */
  lemma InfectedIds(place: nat -> Cell, base: int, n: nat, infected: nat)
    requires infected <= n
    ensures (set id | id in Placed(place, base, n, infected) && Placed(place, base, n, infected)[id].etat == Infecte)
         == IdRange(base, infected)
  {
    var m := Placed(place, base, n, infected);
    forall id ensures id in m && m[id].etat == Infecte <==> id in IdRange(base, infected) {
      if id in m {
        var k :| 0 <= k < n && id == IdOf(base, k);
        assert m[id].etat == Infecte <==> k < infected;
      }
      if id in IdRange(base, infected) {
        var k :| 0 <= k < infected && id == IdOf(base, k);
        assert m[id].etat == Infecte;
      }
    }
  }

  /** After `starting_grid`: NB_PERSONNAGES agents, all on the terrain, and
      exactly min(NB_INFECTES_DEPART, NB_PERSONNAGES) of them infected. */
  lemma InitialShape(place: nat -> Cell, base: int)
    ensures |InitialPersos(place, base)| == NB_PERSONNAGES
    ensures AllInBounds(InitialPersos(place, base))
    ensures Count(InitialPersos(place, base), Infecte) == Min(NB_INFECTES_DEPART, NB_PERSONNAGES)
    ensures Count(InitialPersos(place, base), Sain) == NB_PERSONNAGES - Min(NB_INFECTES_DEPART, NB_PERSONNAGES)
  {
    var m := InitialPersos(place, base);
    var infected := Min(NB_INFECTES_DEPART, NB_PERSONNAGES);
    PlacedShape(place, base, NB_PERSONNAGES, infected);
    PlacedValid(place, base, NB_PERSONNAGES, infected);
    IdRangeCard(base, NB_PERSONNAGES);
    InfectedIds(place, base, NB_PERSONNAGES, infected);
    IdRangeCard(base, infected);
    CountsSum(m);
  }

  /** The terrain of `starting_grid` covers the grid with 'S' and 'F' cells. */
  lemma InitialTerrainShape(sol: Coord -> bool)
    ensures InitialTerrain(sol).Keys == Rect(TAILLE_GRILLE, TAILLE_GRILLE)
    ensures |InitialTerrain(sol)| == TAILLE_GRILLE * TAILLE_GRILLE
    ensures forall c :: c in InitialTerrain(sol) ==> (InitialTerrain(sol)[c] == S <==> sol(c))
  {
    RectCard(TAILLE_GRILLE, TAILLE_GRILLE);
  }

  // ---------------------------------------------------------------------------
  // The simulation object

  /** The state of mainV6.py: `etats_sol`, `persos` with its key order, and the
      `auto_running` flag. */
  class Simulation {
    var etatsSol: map<Coord, Sol>
    var persos: map<int, Perso>
    var ordre: seq<int>
    var autoRunning: bool

    /** `ordre` lists each id of `persos` once, and every agent is on the terrain. */
    ghost predicate Valid()
      reads this
    {
      Distinct(ordre) && (forall id :: id in ordre <==> id in persos) && AllInBounds(persos)
    }

    /** The empty dicts and the stopped simulation the module starts with. */
    constructor ()
      ensures Valid() && etatsSol == map[] && persos == map[] && ordre == [] && !autoRunning
    {
      etatsSol, persos, ordre, autoRunning := map[], map[], [], false;
    }

    /** `infecter_personnage`. */
    method InfecterPersonnage(pid: int)
      requires Valid()
      modifies this
      ensures Valid()
      ensures persos == Infect(old(persos), pid)
      ensures ordre == old(ordre) && etatsSol == old(etatsSol) && autoRunning == old(autoRunning)
    {
      if pid in persos {
        persos := persos[pid := persos[pid].(etat := Infecte)];
      }
    }

    /** `tuer_personnage`; the canvas image it also deletes is not modelled. */
    method TuerPersonnage(pid: int)
      requires Valid()
      modifies this
      ensures Valid()
      ensures persos == Kill(old(persos), pid)
      ensures ordre == Without(old(ordre), pid)
      ensures etatsSol == old(etatsSol) && autoRunning == old(autoRunning)
    {
      if pid in persos {
        WithoutDistinct(ordre, pid);
        WithoutElems(ordre, pid);
        persos := persos - {pid};
        ordre := Without(ordre, pid);
      } else {
        WithoutAbsent(ordre, pid);
      }
    }

    /** `deplacer_tous`: every agent, in key order, takes its turn of `MoveOne`. */
    method DeplacerTous(move: int -> bool, dir: int -> Dir)
      requires Valid()
      modifies this
      ensures Valid()
      ensures persos == Moved(old(persos), move, dir)
      ensures ordre == old(ordre) && etatsSol == old(etatsSol) && autoRunning == old(autoRunning)
    {
      ghost var m := persos;
      var pids := ordre;
      PartMovedBounds(m, pids, move, dir);
      for i := 0 to |pids|
        invariant persos == PartMoved(m, pids[..i], move, dir)
        invariant ordre == old(ordre) && etatsSol == old(etatsSol) && autoRunning == old(autoRunning)
      {
        var pid := pids[i];
        PartMovedNext(m, pids, i, move, dir);
        MoveAgent(pid, move(pid), dir(pid));
      }
      assert pids[..|pids|] == pids;
      MovedKeepsOrder(m, pids, move, dir);
    }

    /** One agent's turn in the loop of `deplacer_tous`. */
    method MoveAgent(pid: int, moves: bool, d: Dir)
      requires pid in persos
      modifies this
      ensures persos == old(persos)[pid := MoveOne(old(persos)[pid], moves, d)]
      ensures ordre == old(ordre) && etatsSol == old(etatsSol) && autoRunning == old(autoRunning)
    {
      var data := persos[pid];
      if moves {
        var target := Shift(Pos(data), Offset(d));
        if 0 <= target.0 < TAILLE_GRILLE && 0 <= target.1 < TAILLE_GRILLE {
          persos := persos[pid := data.(lig := target.0, col := target.1)];
        }
      }
    }

    /** `gerer_collisions`: the pair loop over the ids in key order. */
    method GererCollisions()
      requires Valid()
      modifies this
      ensures Valid()
      ensures persos == Collided(old(persos), old(ordre))
      ensures ordre == old(ordre) && etatsSol == old(etatsSol) && autoRunning == old(autoRunning)
    {
      var pids := ordre;
      ghost var m := persos;
      for i := 0 to |pids|
        invariant persos == Collisions(m, pids, i)
        invariant Valid() && ordre == old(ordre) && etatsSol == old(etatsSol) && autoRunning == old(autoRunning)
      {
        for j := i + 1 to |pids|
          invariant persos == RowPass(Collisions(m, pids, i), pids, i, j)
          invariant Valid() && ordre == old(ordre) && etatsSol == old(etatsSol) && autoRunning == old(autoRunning)
        {
          CollidePair(pids[i], pids[j]);
        }
      }
    }

    /** The body of the pair loop of `gerer_collisions` for the pair (id1, id2). */
    method CollidePair(id1: int, id2: int)
      requires Valid()
      modifies this
      ensures Valid()
      ensures persos == CollideOne(old(persos), id1, id2)
      ensures ordre == old(ordre) && etatsSol == old(etatsSol) && autoRunning == old(autoRunning)
    {
      if id1 in persos && id2 in persos {
        if (persos[id1].etat == Infecte) != (persos[id2].etat == Infecte) {
          if Collision(persos[id1], persos[id2]) {
            InfecterPersonnage(id1);
            InfecterPersonnage(id2);
          }
        }
      }
    }

    /** `gerer_mortalite`: walks a copy of the ids and removes each infected
        agent whose death draw succeeds. */
    method GererMortalite(death: int -> bool)
      requires Valid()
      modifies this
      ensures Valid()
      ensures persos == Mortality(old(persos), death)
      ensures ordre == Survivors(old(ordre), old(persos), death)
      ensures etatsSol == old(etatsSol) && autoRunning == old(autoRunning)
    {
      var tous := ordre;
      ghost var m := persos;
      PartMortalityBounds(m, tous, death);
      for i := 0 to |tous|
        invariant Valid()
        invariant persos == PartMortality(m, tous[..i], death)
        invariant ordre == Survivors(tous[..i], m, death) + tous[i..]
        invariant etatsSol == old(etatsSol) && autoRunning == old(autoRunning)
      {
        var pid := tous[i];
        MortalityLoopStep(tous, i, m, death, persos, ordre);
        MortalityTurn(pid, death(pid));
      }
      assert tous[..|tous|] == tous;
    }

    /** One agent's turn in the loop of `gerer_mortalite`: it dies when it is
        still there, infected, and its draw `dies` succeeds. */
    method MortalityTurn(pid: int, dies: bool)
      requires Valid()
      modifies this
      ensures Valid()
      ensures var killed := pid in old(persos) && old(persos)[pid].etat == Infecte && dies;
              && (killed ==> persos == Kill(old(persos), pid) && ordre == Without(old(ordre), pid))
              && (!killed ==> persos == old(persos) && ordre == old(ordre))
      ensures etatsSol == old(etatsSol) && autoRunning == old(autoRunning)
    {
      if pid in persos && persos[pid].etat == Infecte {
        if dies {
          TuerPersonnage(pid);
        }
      }
    }

    /** `propagation`: nothing when nobody is alive; otherwise movement, then
        collisions, then mortality. The terrain is never touched. */
    method Propagation(move: int -> bool, dir: int -> Dir, death: int -> bool)
      requires Valid()
      modifies this
      ensures Valid()
      ensures persos == StepPersos(old(persos), old(ordre), move, dir, death)
      ensures old(persos) == map[] ==> ordre == old(ordre)
      ensures old(persos) != map[] ==>
                ordre == Survivors(old(ordre), Collided(Moved(old(persos), move, dir), old(ordre)), death)
      ensures etatsSol == old(etatsSol) && autoRunning == old(autoRunning)
    {
      if persos == map[] {
        return;
      }
      DeplacerTous(move, dir);
      GererCollisions();
      GererMortalite(death);
    }

    /** `starting_grid`: stops the automatic run, draws the terrain, places
        NB_PERSONNAGES healthy agents (the k-th with canvas id `base + k` at
        cell `place(k)`), then infects the first
        min(NB_INFECTES_DEPART, NB_PERSONNAGES) of them. */
    method StartingGrid(sol: Coord -> bool, place: nat -> Cell, base: int)
      modifies this
      ensures Valid() && !autoRunning
      ensures etatsSol == InitialTerrain(sol)
      ensures persos == InitialPersos(place, base)
      ensures ordre == IdSeq(base, NB_PERSONNAGES)
    {
      autoRunning := false;
      etatsSol, persos, ordre := map[], map[], [];
      DrawTerrain(sol);
      var allPids := PlaceAgents(place, base);
      for i := 0 to Min(NB_INFECTES_DEPART, |allPids|)
        invariant persos == Placed(place, base, NB_PERSONNAGES, i)
        invariant Valid() && !autoRunning && etatsSol == InitialTerrain(sol)
        invariant ordre == allPids == IdSeq(base, NB_PERSONNAGES)
      {
        PlacedInfect(place, base, NB_PERSONNAGES, i);
        InfecterPersonnage(allPids[i]);
      }
    }

    /** The terrain loop of `starting_grid`: each cell is 'S' when its draw
        succeeds, 'F' otherwise. */
    method DrawTerrain(sol: Coord -> bool)
      requires etatsSol == map[]
      modifies this
      ensures etatsSol == InitialTerrain(sol)
      ensures persos == old(persos) && ordre == old(ordre) && autoRunning == old(autoRunning)
    {
      for l := 0 to TAILLE_GRILLE
        invariant etatsSol == map c | c in Rect(l, TAILLE_GRILLE) :: if sol(c) then S else F
        invariant persos == old(persos) && ordre == old(ordre) && autoRunning == old(autoRunning)
      {
        for c := 0 to TAILLE_GRILLE
          invariant etatsSol == map p | p in Rect(l, TAILLE_GRILLE) + RowPrefix(l, c) :: if sol(p) then S else F
          invariant persos == old(persos) && ordre == old(ordre) && autoRunning == old(autoRunning)
        {
          GrowRow(l, c, TAILLE_GRILLE);
          etatsSol := etatsSol[(l, c) := if sol((l, c)) then S else F];
        }
        GrowRect(l, TAILLE_GRILLE);
      }
    }

    /** The placement loop of `starting_grid`: NB_PERSONNAGES healthy agents,
        the k-th with id `base + k` at cell `place(k)`, listed in creation
        order. */
    method PlaceAgents(place: nat -> Cell, base: int) returns (allPids: seq<int>)
      requires persos == map[] && ordre == []
      modifies this
      ensures Valid()
      ensures persos == Placed(place, base, NB_PERSONNAGES, 0)
      ensures allPids == ordre == IdSeq(base, NB_PERSONNAGES)
      ensures etatsSol == old(etatsSol) && autoRunning == old(autoRunning)
    {
      allPids := [];
      for k := 0 to NB_PERSONNAGES
        invariant allPids == ordre == IdSeq(base, k)
        invariant persos == Placed(place, base, k, 0)
        invariant Valid() && etatsSol == old(etatsSol) && autoRunning == old(autoRunning)
      {
        var pid := IdOf(base, k);
        PlacedGrow(place, base, k);
        persos := persos[pid := Perso(place(k).0, place(k).1, Sain)];
        ordre := ordre + [pid];
        allPids := allPids + [pid];
        assert ordre == IdSeq(base, k + 1);
        PlacedValid(place, base, k + 1, 0);
      }
    }

    /** The counts `maj_stats` shows: healthy, infected and alive, the first
        two adding up to the third. */
    function Stats(): (r: (nat, nat, nat))
      reads this
      ensures r == (Count(persos, Sain), Count(persos, Infecte), |persos|)
      ensures r.0 + r.1 == r.2
    {
      CountsSum(persos);
      (Count(persos, Sain), Count(persos, Infecte), |persos|)
    }
  }

  /** One iteration of the loop of `gerer_mortalite` keeps its invariant:
      whether the agent is killed or not, the population and the key order
      become those after one more draw. */
  lemma MortalityLoopStep(tous: seq<int>, i: nat, m: map<int, Perso>, death: int -> bool,
                          persos: map<int, Perso>, ordre: seq<int>)
    requires i < |tous| && Distinct(tous) && forall id :: id in m ==> id in tous
    requires forall id :: id in tous ==> id in m
    requires persos == PartMortality(m, tous[..i], death)
    requires ordre == Survivors(tous[..i], m, death) + tous[i..]
    ensures var pid := tous[i];
            var killed := pid in persos && persos[pid].etat == Infecte && death(pid);
            && (killed ==> Kill(persos, pid) == PartMortality(m, tous[..i + 1], death)
                           && Without(ordre, pid) == Survivors(tous[..i + 1], m, death) + tous[i + 1..])
            && (!killed ==> persos == PartMortality(m, tous[..i + 1], death)
                            && ordre == Survivors(tous[..i + 1], m, death) + tous[i + 1..])
  {
    var pid := tous[i];
    assert pid !in tous[..i] by {
      assert forall k :: 0 <= k < i ==> tous[k] != pid;
    }
    assert pid in m;
    PartMortalityStep(m, tous[..i], pid, death);
    assert tous[..i + 1] == tous[..i] + [pid];
    if Dies(m, pid, death) {
      MortalityStep(tous, i, m, death);
    } else {
      SurvivorsKeep(tous, i, m, death);
    }
  }

  /** One removal in `gerer_mortalite` keeps the key order equal to the
      survivors so far followed by the ids still to visit. */
  lemma MortalityStep(tous: seq<int>, i: nat, m: map<int, Perso>, death: int -> bool)
    requires i < |tous| && Distinct(tous)
    requires Dies(m, tous[i], death)
    ensures Without(Survivors(tous[..i], m, death) + tous[i..], tous[i])
         == Survivors(tous[..i + 1], m, death) + tous[i + 1..]
  {
    var x := tous[i];
    var pre := Survivors(tous[..i], m, death);
    var post := tous[i + 1..];
    assert x !in pre by {
      SurvivorsElems(tous[..i], m, death);
      assert forall k :: 0 <= k < i ==> tous[k] != x;
    }
    assert x !in post by {
      assert forall k :: i < k < |tous| ==> tous[k] != x;
    }
    assert tous[i..] == [x] + post;
    WithoutMiddle(pre, x, post);
    SurvivorsDrop(tous, i, m, death);
  }

  /** Removing the only occurrence of `x`. */
  lemma WithoutMiddle(pre: seq<int>, x: int, post: seq<int>)
    requires x !in pre && x !in post
    ensures Without(pre + ([x] + post), x) == pre + post
  {
    assert Without([x], x) == [] by {
      assert [x][1..] == [];
    }
    calc {
      Without(pre + ([x] + post), x);
      { WithoutAppend(pre, [x] + post, x); }
      Without(pre, x) + Without([x] + post, x);
      { WithoutAppend([x], post, x); }
      Without(pre, x) + (Without([x], x) + Without(post, x));
      { WithoutAbsent(pre, x); WithoutAbsent(post, x); }
      pre + ([] + post);
      { assert [] + post == post; }
      pre + post;
    }
  }

  /** An agent that does not die keeps its place in the key order. */
  lemma SurvivorsKeep(tous: seq<int>, i: nat, m: map<int, Perso>, death: int -> bool)
    requires i < |tous| && !Dies(m, tous[i], death)
    ensures Survivors(tous[..i + 1], m, death) + tous[i + 1..] == Survivors(tous[..i], m, death) + tous[i..]
  {
    assert tous[..i + 1][..i] == tous[..i];
    assert tous[i..] == [tous[i]] + tous[i + 1..];
  }

  /** An agent that dies does not join the survivors. */
  lemma SurvivorsDrop(tous: seq<int>, i: nat, m: map<int, Perso>, death: int -> bool)
    requires i < |tous| && Dies(m, tous[i], death)
    ensures Survivors(tous[..i + 1], m, death) == Survivors(tous[..i], m, death)
  {
    assert tous[..i + 1][..i] == tous[..i];
  }
}
