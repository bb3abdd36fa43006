/** The two-set infection grid of mainV2.py.

    Every cell of a fixed TAILLE_GRILLE × TAILLE_GRILLE grid is a key of
    `cases`; a cell is healthy when it is also in `cases_soignees`, infected
    when it is in `cases_infectees`, and immune when it is in neither. There is
    no recovery: infection spreads from every infected cell to the healthy
    cells of its `directions` neighbourhood (itself and its four axis
    neighbours), each with its own random draw.

    The canvas rectangles that the source stores as the dicts' values are
    drawing handles; only the key sets are modelled. Each `random.random() < p`
    is a boolean supplied by an oracle. */
module TwoSetGrid {
  import opened Grid

  /** Cells per side of the grid. */
  const TAILLE_GRILLE := 10

  /** The `directions` table: the cell itself, up, down, left, right. */
  const DIRECTIONS: seq<(int, int)> := [(0, 0), (-1, 0), (1, 0), (0, -1), (0, 1)]

  /** The cell that entry `d` of the `directions` table reaches from `c`. */
  function Neighbour(c: Coord, d: nat): Coord
    requires d < |DIRECTIONS|
  {
    Shift(c, DIRECTIONS[d])
  }

  /** The healthy cells that one step infects from the cells of `sources`.
      `draw(c, d)` is the outcome of the random draw made when infected cell
      `c` looks at entry `d` of the table and finds a healthy cell there. */
  function NewlyInfected(healthy: set<Coord>, sources: set<Coord>, draw: (Coord, nat) -> bool): (r: set<Coord>)
    ensures r <= healthy
    ensures forall v :: v in r ==>
              exists c, d :: c in sources && 0 <= d < |DIRECTIONS| && Neighbour(c, d) == v && draw(c, d)
  {
    set c, d: nat | c in sources && d < |DIRECTIONS| && Neighbour(c, d) in healthy && draw(c, d) :: Neighbour(c, d)
  }

  /** The healthy cells that the first `k` entries of the table infect from `c`. */
  function ReachedFrom(healthy: set<Coord>, c: Coord, k: nat, draw: (Coord, nat) -> bool): set<Coord>
    requires k <= |DIRECTIONS|
  {
    set d: nat | d < k && Neighbour(c, d) in healthy && draw(c, d) :: Neighbour(c, d)
  }

  /** The condition `propagation_possible` looks for: some infected cell has a
      healthy cell at one of the `directions` offsets. */
  ghost predicate Possible(healthy: set<Coord>, infected: set<Coord>)
  {
    exists c, d :: c in infected && 0 <= d < |DIRECTIONS| && Neighbour(c, d) in healthy
  }

  /** The draw that always succeeds. */
  function AllDraws(c: Coord, d: nat): bool { true }

  /** Scanning one more infected cell adds exactly what that cell reaches. */
  lemma AddSource(healthy: set<Coord>, sources: set<Coord>, c: Coord, draw: (Coord, nat) -> bool)
    ensures NewlyInfected(healthy, sources + {c}, draw)
         == NewlyInfected(healthy, sources, draw) + ReachedFrom(healthy, c, |DIRECTIONS|, draw)
  {
  }

  /** Looking at one more entry of the table adds at most that neighbour. */
  lemma AddDirection(healthy: set<Coord>, c: Coord, k: nat, draw: (Coord, nat) -> bool)
    requires k < |DIRECTIONS|
    ensures ReachedFrom(healthy, c, k + 1, draw)
         == ReachedFrom(healthy, c, k, draw)
            + (if Neighbour(c, k) in healthy && draw(c, k) then {Neighbour(c, k)} else {})
  {
  }

  /** When `propagation_possible` is false, no draw can infect anything; when
      it is true, the draws that all succeed infect something. */
  lemma PossibleIffSomeSpread(healthy: set<Coord>, infected: set<Coord>)
    ensures !Possible(healthy, infected) ==>
              forall draw: (Coord, nat) -> bool :: NewlyInfected(healthy, infected, draw) == {}
    ensures Possible(healthy, infected) ==> NewlyInfected(healthy, infected, AllDraws) != {}
  {
    if Possible(healthy, infected) {
      var c, d :| c in infected && 0 <= d < |DIRECTIONS| && Neighbour(c, d) in healthy;
      assert Neighbour(c, d) in NewlyInfected(healthy, infected, AllDraws);
    }
  }

  /** One step on disjoint healthy and infected subsets of `cases`: both stay
      disjoint subsets of `cases`, infected never shrinks, no immune cell
      changes, and healthy + infected + immune still adds up to |cases|. */
  lemma StepKeepsPartition(cases: set<Coord>, healthy: set<Coord>, infected: set<Coord>, draw: (Coord, nat) -> bool)
    requires healthy <= cases && infected <= cases && healthy !! infected
    ensures var n := NewlyInfected(healthy, infected, draw);
            var healthy', infected' := healthy - n, infected + n;
            && healthy' <= cases && infected' <= cases && healthy' !! infected'
            && infected <= infected'
            && cases - healthy' - infected' == cases - healthy - infected
            && |healthy'| + |infected'| + |cases - healthy' - infected'| == |cases|
            && |healthy'| + |infected'| == |healthy| + |infected|
  {
    MoveToInfected(cases, healthy, infected, NewlyInfected(healthy, infected, draw));
  }

  /** Moving any subset `n` of the healthy cells to the infected ones. */
  lemma MoveToInfected(cases: set<Coord>, healthy: set<Coord>, infected: set<Coord>, n: set<Coord>)
    requires healthy <= cases && infected <= cases && healthy !! infected && n <= healthy
    ensures var healthy', infected' := healthy - n, infected + n;
            && healthy' <= cases && infected' <= cases && healthy' !! infected'
            && infected <= infected'
            && cases - healthy' - infected' == cases - healthy - infected
            && |healthy'| + |infected'| + |cases - healthy' - infected'| == |cases|
            && |healthy'| + |infected'| == |healthy| + |infected|
  {
    var healthy', infected' := healthy - n, infected + n;
    assert cases - healthy' - infected' == cases - healthy - infected;
    ImmuneCount(cases, healthy', infected');
    assert healthy == healthy' + n && healthy' !! n;
    assert infected' == infected + n && infected !! n;
  }

  /** The immune count `len(cases) - len(cases_soignees) - len(cases_infectees)`
      of `maj_stats` is the number of cells in neither set. */
  lemma ImmuneCount(cases: set<Coord>, healthy: set<Coord>, infected: set<Coord>)
    requires healthy <= cases && infected <= cases && healthy !! infected
    ensures |cases| - |healthy| - |infected| == |cases - healthy - infected|
  {
    var immune := cases - healthy - infected;
    assert cases == immune + healthy + infected;
    assert immune !! healthy && immune !! infected;
  }

  /** The 5 × 5 scenario: with every draw succeeding, one infected centre cell
      infects exactly its four axis neighbours and nothing two steps away. */
  lemma CentreScenario()
    ensures NewlyInfected(Rect(5, 5) - {(2, 2)}, {(2, 2)}, AllDraws) == {(1, 2), (3, 2), (2, 1), (2, 3)}
  {
    CentreReaches();
    CentreOnly();
  }

  /** The four axis neighbours of the centre are healthy and get infected. */
  lemma CentreReaches()
    ensures {(1, 2), (3, 2), (2, 1), (2, 3)} <= NewlyInfected(Rect(5, 5) - {(2, 2)}, {(2, 2)}, AllDraws)
  {
    var healthy := Rect(5, 5) - {(2, 2)};
    assert (1, 2) in Rect(5, 5) && (3, 2) in Rect(5, 5) && (2, 1) in Rect(5, 5) && (2, 3) in Rect(5, 5);
    assert Neighbour((2, 2), 1) == (1, 2) && (1, 2) in healthy;
    assert Neighbour((2, 2), 2) == (3, 2) && (3, 2) in healthy;
    assert Neighbour((2, 2), 3) == (2, 1) && (2, 1) in healthy;
    assert Neighbour((2, 2), 4) == (2, 3) && (2, 3) in healthy;
  }

  /** Nothing but those four neighbours gets infected: the centre is not healthy. */
  lemma CentreOnly()
    ensures NewlyInfected(Rect(5, 5) - {(2, 2)}, {(2, 2)}, AllDraws) <= {(1, 2), (3, 2), (2, 1), (2, 3)}
  {
    var r := NewlyInfected(Rect(5, 5) - {(2, 2)}, {(2, 2)}, AllDraws);
    forall v | v in r ensures v in {(1, 2), (3, 2), (2, 1), (2, 3)} {
      var c, d :| c in {(2, 2)} && 0 <= d < |DIRECTIONS| && Neighbour(c, d) == v && AllDraws(c, d);
      assert d != 0;
    }
  }

  /** The scan of `propagation`: for every infected cell and every entry of
      the `directions` table, adds the neighbour to `nouveaux_infectes` when it
      is healthy and its draw succeeds. Nothing is written back during the
      scan, so every test sees the pre-step sets. */
  method CollectNewlyInfected(healthy: set<Coord>, infected: set<Coord>, draw: (Coord, nat) -> bool)
    returns (nouveaux: set<Coord>)
    ensures nouveaux == NewlyInfected(healthy, infected, draw)
  {
    nouveaux := {};
    var todo := infected;
    while todo != {}
      invariant todo <= infected
      invariant nouveaux == NewlyInfected(healthy, infected - todo, draw)
      decreases todo
    {
      var c :| c in todo;
      for d := 0 to |DIRECTIONS|
        invariant nouveaux == NewlyInfected(healthy, infected - todo, draw) + ReachedFrom(healthy, c, d, draw)
      {
        AddDirection(healthy, c, d, draw);
        var v := Neighbour(c, d);
        if v in healthy && draw(c, d) {
          nouveaux := nouveaux + {v};
        }
      }
      AddSource(healthy, infected - todo, c, draw);
      assert infected - (todo - {c}) == (infected - todo) + {c};
      todo := todo - {c};
    }
    assert infected - todo == infected;
  }

  /** The simulation state of mainV2.py: its three dicts as key sets, and the
      step counter `nombre_de_simulations`. */
  class Simulation {
    var cases: set<Coord>
    var soignees: set<Coord>
    var infectees: set<Coord>
    var nombreDeSimulations: nat

    /** Healthy and infected are disjoint subsets of the grid's cells. */
    ghost predicate Valid()
      reads this
    {
      soignees <= cases && infectees <= cases && soignees !! infectees
    }

    /** The empty dicts and zero counter the module starts with. */
    constructor ()
      ensures Valid()
      ensures cases == {} && soignees == {} && infectees == {} && nombreDeSimulations == 0
    {
      cases, soignees, infectees := {}, {}, {};
      nombreDeSimulations := 0;
    }

    /** `starting_grid`: clears everything and lays out the full grid, making
        cell p healthy when `healthyDraw(p)` (the draw `random() < prob`) holds
        and immune otherwise. */
    method StartingGrid(healthyDraw: Coord -> bool)
      modifies this
      ensures Valid()
      ensures cases == Rect(TAILLE_GRILLE, TAILLE_GRILLE) && |cases| == TAILLE_GRILLE * TAILLE_GRILLE
      ensures soignees == set p | p in cases && healthyDraw(p)
      ensures infectees == {} && nombreDeSimulations == 0
    {
      nombreDeSimulations := 0;
      cases, soignees, infectees := {}, {}, {};
      for i := 0 to TAILLE_GRILLE
        invariant cases == Rect(i, TAILLE_GRILLE)
        invariant soignees == set p | p in cases && healthyDraw(p)
        invariant infectees == {} && nombreDeSimulations == 0
      {
        for j := 0 to TAILLE_GRILLE
          invariant cases == Rect(i, TAILLE_GRILLE) + RowPrefix(i, j)
          invariant soignees == set p | p in cases && healthyDraw(p)
          invariant infectees == {} && nombreDeSimulations == 0
        {
          GrowRow(i, j, TAILLE_GRILLE);
          cases := cases + {(i, j)};
          if healthyDraw((i, j)) {
            soignees := soignees + {(i, j)};
          }
        }
        GrowRect(i, TAILLE_GRILLE);
      }
      RectCard(TAILLE_GRILLE, TAILLE_GRILLE);
    }

    /** `propagation_possible`: whether some infected cell has a healthy cell
        at one of the `directions` offsets. */
    method PropagationPossible() returns (r: bool)
      requires Valid()
      ensures r <==> Possible(soignees, infectees)
    {
      var todo := infectees;
      while todo != {}
        invariant todo <= infectees
        invariant !Possible(soignees, infectees - todo)
        decreases todo
      {
        var c :| c in todo;
        for d := 0 to |DIRECTIONS|
          invariant forall e :: 0 <= e < d ==> Neighbour(c, e) !in soignees
        {
          if Neighbour(c, d) in soignees {
            return true;
          }
        }
        todo := todo - {c};
      }
      return false;
    }

    /** `propagation`: bumps the counter, collects into `nouveaux_infectes`
        every healthy cell that an infected cell of the pre-step state reaches
        with a successful draw, and only then moves those cells from healthy to
        infected. `draw(c, d)` is the draw for infected cell `c` and entry `d`
        of the `directions` table. */
    method Propagation(draw: (Coord, nat) -> bool)
      requires Valid()
      modifies this
      ensures Valid()
      ensures cases == old(cases)
      ensures nombreDeSimulations == old(nombreDeSimulations) + 1
      ensures soignees == old(soignees) - NewlyInfected(old(soignees), old(infectees), draw)
      ensures infectees == old(infectees) + NewlyInfected(old(soignees), old(infectees), draw)
    {
      nombreDeSimulations := nombreDeSimulations + 1;
      var nouveaux := CollectNewlyInfected(soignees, infectees, draw);
      ApplyInfections(nouveaux);
    }

    /** The second loop of `propagation`: moves every cell of `nouveaux` from
        the healthy set to the infected set. */
    method ApplyInfections(nouveaux: set<Coord>)
      requires Valid() && nouveaux <= soignees
      modifies this
      ensures Valid()
      ensures cases == old(cases) && nombreDeSimulations == old(nombreDeSimulations)
      ensures soignees == old(soignees) - nouveaux
      ensures infectees == old(infectees) + nouveaux
    {
      ghost var healthy0, infected0 := soignees, infectees;
      ghost var done: set<Coord> := {};
      var rest := nouveaux;
      while rest != {}
        invariant rest <= nouveaux && done == nouveaux - rest
        invariant infectees == infected0 + done
        invariant soignees == healthy0 - done
        invariant cases == old(cases) && nombreDeSimulations == old(nombreDeSimulations)
        decreases rest
      {
        var coord :| coord in rest;
        infectees := infectees + {coord};
        soignees := soignees - {coord};
        rest := rest - {coord};
        done := done + {coord};
      }
      assert done == nouveaux;
    }

    /** `clic` on cell (l, c): infects it when it is healthy; an immune,
        already infected or off-grid cell leaves everything unchanged. */
    method Clic(l: int, c: int)
      requires Valid()
      modifies this
      ensures Valid()
      ensures cases == old(cases) && nombreDeSimulations == old(nombreDeSimulations)
      ensures (l, c) in old(soignees) ==>
                soignees == old(soignees) - {(l, c)} && infectees == old(infectees) + {(l, c)}
      ensures (l, c) !in old(soignees) ==> soignees == old(soignees) && infectees == old(infectees)
    {
      if (l, c) in soignees {
        infectees := infectees + {(l, c)};
        soignees := soignees - {(l, c)};
      }
    }

    /** The three numbers `maj_stats` displays: healthy, infected, and immune
        computed as the difference; immune is the number of cells in neither
        set, so the three add up to the number of cells. */
    function Stats(): (r: (nat, nat, nat))
      reads this
      requires Valid()
      ensures r.0 == |soignees| && r.1 == |infectees|
      ensures r.2 == |cases - soignees - infectees|
      ensures r.0 + r.1 + r.2 == |cases|
    {
      ImmuneCount(cases, soignees, infectees);
      (|soignees|, |infectees|, |cases| - |soignees| - |infectees|)
    }
  }
}
