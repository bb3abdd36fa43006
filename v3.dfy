/** The S/I/R grid of V3.py.

    `etats` maps every cell of an n × n grid to 'S' (susceptible), 'I'
    (infected) or 'R' (recovered). One step scans the grid as it was before
    the step: every infected cell tries to infect each susceptible cell of its
    Moore neighbourhood (the eight surrounding cells) and tries to recover;
    successes are gathered in `changements` and written into `etats` only
    after the scan.

    Each `random.random() < p` is a boolean supplied by an oracle keyed by
    what the draw is for. */
module SirGrid {
  import opened Grid

  /** The three cell states, 'S', 'I' and 'R'. */
  datatype Etat = S | I | R

  /** The Moore neighbourhood offsets, in the order the scan tries them. */
  const MOORE: seq<(int, int)> := [(-1, -1), (-1, 0), (-1, 1), (0, -1), (0, 1), (1, -1), (1, 0), (1, 1)]

  /** The cell that entry `d` of the Moore table reaches from `u`. */
  function Neighbour(u: Coord, d: nat): Coord
    requires d < |MOORE|
  {
    Shift(u, MOORE[d])
  }

  /** Whether `v` is one of the eight cells around `u`. */
  ghost predicate Adjacent(u: Coord, v: Coord)
  {
    exists d :: 0 <= d < |MOORE| && Neighbour(u, d) == v
  }

  /** The cells that the infected cells of `sources` infect: a neighbour that
      is a key of `etats`, is 'S' and whose draw `inf(u, d)` succeeds. */
  function Infections(etats: map<Coord, Etat>, sources: set<Coord>, inf: (Coord, nat) -> bool): (r: set<Coord>)
    ensures forall v :: v in r ==> v in etats && etats[v] == S
  {
    set u, d: nat | u in sources && u in etats && etats[u] == I && d < |MOORE|
                    && Neighbour(u, d) in etats && etats[Neighbour(u, d)] == S && inf(u, d)
                 :: Neighbour(u, d)
  }

  /** The cells that the first `k` Moore entries of infected cell `u` infect. */
  function InfectionsFrom(etats: map<Coord, Etat>, u: Coord, k: nat, inf: (Coord, nat) -> bool): set<Coord>
    requires k <= |MOORE|
  {
    set d: nat | d < k && Neighbour(u, d) in etats && etats[Neighbour(u, d)] == S && inf(u, d) :: Neighbour(u, d)
  }

  /** The infected cells of `sources` whose recovery draw `rec(u)` succeeds. */
  function Recoveries(etats: map<Coord, Etat>, sources: set<Coord>, rec: Coord -> bool): (r: set<Coord>)
    ensures forall v :: v in r ==> v in etats && etats[v] == I
  {
    set u | u in sources && u in etats && etats[u] == I && rec(u)
  }

  /** What `changements` holds once the scan has visited `sources`: its keys
      are the infection and recovery targets, an infection target maps to 'I'
      and a recovery target to 'R'. */
  ghost predicate IsChangements(etats: map<Coord, Etat>, sources: set<Coord>, inf: (Coord, nat) -> bool,
                                rec: Coord -> bool, changements: map<Coord, Etat>)
  {
    && changements.Keys == Infections(etats, sources, inf) + Recoveries(etats, sources, rec)
    && Recorded(etats, changements)
  }

  /** Every entry of `changements` is for a cell of the grid and records the
      move out of that cell's pre-step state: 'S' to 'I', or 'I' to 'R'. */
  ghost predicate Recorded(etats: map<Coord, Etat>, changements: map<Coord, Etat>)
  {
    forall v :: v in changements ==> v in etats && changements[v] == (if etats[v] == S then I else R)
  }

  /** The grid after one `propagation` step: every cell takes the value that
      `changements` gives it, and keeps its value otherwise. */
  ghost function Step(etats: map<Coord, Etat>, inf: (Coord, nat) -> bool, rec: Coord -> bool): map<Coord, Etat>
  {
    map c | c in etats ::
      if c in Recoveries(etats, etats.Keys, rec) then R
      else if c in Infections(etats, etats.Keys, inf) then I
      else etats[c]
  }

  /** The grid `initialiser_grille` builds: every cell of the n × n block is
      'R' when its draw `immune(c)` succeeds and 'S' otherwise. */
  function InitialGrid(n: nat, immune: Coord -> bool): map<Coord, Etat>
  {
    map c | c in Rect(n, n) :: if immune(c) then R else S
  }

  /** How many cells are in state `e`: one of the counts of `maj_stats`. */
  function Count(etats: map<Coord, Etat>, e: Etat): nat
  {
    |set c | c in etats && etats[c] == e|
  }

  /** An infection target is susceptible and a recovery target is infected, so
      no cell is both and the order in which `changements` is written back
      does not matter. */
  lemma TargetsDisjoint(etats: map<Coord, Etat>, sources: set<Coord>, inf: (Coord, nat) -> bool, rec: Coord -> bool)
    ensures Infections(etats, sources, inf) !! Recoveries(etats, sources, rec)
  {
    forall v | v in Infections(etats, sources, inf)
      ensures v !in Recoveries(etats, sources, rec)
    {
      assert etats[v] == S;
    }
  }

  /** Visiting one more cell `u` in the scan adds the infections of its eight
      neighbours (when `u` is infected) and its own recovery. */
  lemma AddSource(etats: map<Coord, Etat>, sources: set<Coord>, u: Coord, inf: (Coord, nat) -> bool, rec: Coord -> bool)
    requires u in etats
    ensures Infections(etats, sources + {u}, inf)
         == Infections(etats, sources, inf) + (if etats[u] == I then InfectionsFrom(etats, u, |MOORE|, inf) else {})
    ensures Recoveries(etats, sources + {u}, rec)
         == Recoveries(etats, sources, rec) + (if etats[u] == I && rec(u) then {u} else {})
  {
  }

  /** Looking at one more Moore entry adds at most that neighbour. */
  lemma AddDirection(etats: map<Coord, Etat>, u: Coord, k: nat, inf: (Coord, nat) -> bool)
    requires k < |MOORE|
    ensures InfectionsFrom(etats, u, k + 1, inf)
         == InfectionsFrom(etats, u, k, inf)
            + (if Neighbour(u, k) in etats && etats[Neighbour(u, k)] == S && inf(u, k) then {Neighbour(u, k)} else {})
  {
  }

  /** Writing a complete `changements` over the grid gives the next grid. */
  lemma ApplyIsStep(etats: map<Coord, Etat>, inf: (Coord, nat) -> bool, rec: Coord -> bool, changements: map<Coord, Etat>)
    requires IsChangements(etats, etats.Keys, inf, rec, changements)
    ensures etats + changements == Step(etats, inf, rec)
  {
    var next := Step(etats, inf, rec);
    TargetsDisjoint(etats, etats.Keys, inf, rec);
    assert (etats + changements).Keys == next.Keys;
    forall c | c in next
      ensures (etats + changements)[c] == next[c]
    {
      if c in Recoveries(etats, etats.Keys, rec) {
        assert etats[c] == I;
      }
    }
  }

  /** A step keeps the keys; the only changes are S to I, for a neighbour of
      a cell infected before the step, and I to R; an 'R' cell never changes. */
  lemma StepTransitions(etats: map<Coord, Etat>, inf: (Coord, nat) -> bool, rec: Coord -> bool)
    ensures Step(etats, inf, rec).Keys == etats.Keys
    ensures forall c :: c in etats ==>
              var e, e' := etats[c], Step(etats, inf, rec)[c];
              || e' == e
              || (e == S && e' == I && exists u :: u in etats && etats[u] == I && Adjacent(u, c))
              || (e == I && e' == R)
    ensures forall c :: c in etats && etats[c] == R ==> Step(etats, inf, rec)[c] == R
  {
    var next := Step(etats, inf, rec);
    forall c | c in etats
      ensures var e, e' := etats[c], next[c];
              || e' == e
              || (e == S && e' == I && exists u :: u in etats && etats[u] == I && Adjacent(u, c))
              || (e == I && e' == R)
    {
      if c !in Recoveries(etats, etats.Keys, rec) && c in Infections(etats, etats.Keys, inf) {
        var u, d: nat :| u in etats && etats[u] == I && d < |MOORE| && Neighbour(u, d) == c
                         && Neighbour(u, d) in etats && etats[Neighbour(u, d)] == S && inf(u, d);
        assert Adjacent(u, c);
      }
    }
  }

  /** With every infection draw succeeding and no recovery draw, a cell is
      infected after the step exactly when it was infected before, or was
      susceptible with an infected cell among its eight neighbours: a cell
      infected during the step does not pass it on in the same step. */
  lemma AllInfectNoneRecover(etats: map<Coord, Etat>)
    ensures forall c :: c in etats ==>
              (Step(etats, (u: Coord, d: nat) => true, (u: Coord) => false)[c] == I
               <==> etats[c] == I || (etats[c] == S && exists u :: u in etats && etats[u] == I && Adjacent(u, c)))
  {
    var inf, rec := (u: Coord, d: nat) => true, (u: Coord) => false;
    var next := Step(etats, inf, rec);
    forall c | c in etats
      ensures next[c] == I <==> etats[c] == I || (etats[c] == S && exists u :: u in etats && etats[u] == I && Adjacent(u, c))
    {
      assert c !in Recoveries(etats, etats.Keys, rec);
      if etats[c] == S && exists u :: u in etats && etats[u] == I && Adjacent(u, c) {
        var u :| u in etats && etats[u] == I && Adjacent(u, c);
        var d :| 0 <= d < |MOORE| && Neighbour(u, d) == c;
        assert c in Infections(etats, etats.Keys, inf);
      }
      if next[c] == I && etats[c] != I {
        StepTransitions(etats, inf, rec);
      }
    }
  }

  /** When no draw succeeds, a step leaves the grid as it was. */
  lemma NoDrawNoChange(etats: map<Coord, Etat>)
    ensures Step(etats, (u: Coord, d: nat) => false, (u: Coord) => false) == etats
  {
    var inf, rec := (u: Coord, d: nat) => false, (u: Coord) => false;
    assert Infections(etats, etats.Keys, inf) == {};
    assert Recoveries(etats, etats.Keys, rec) == {};
  }

  /** When every recovery draw succeeds, every infected cell is 'R' after the
      step. */
  lemma AllRecover(etats: map<Coord, Etat>, inf: (Coord, nat) -> bool)
    ensures forall c :: c in etats && etats[c] == I ==> Step(etats, inf, (u: Coord) => true)[c] == R
  {
    var rec := (u: Coord) => true;
    forall c | c in etats && etats[c] == I
      ensures Step(etats, inf, rec)[c] == R
    {
      assert c in Recoveries(etats, etats.Keys, rec);
    }
  }

  /** A grid without infected cells is a fixed point of the step, whatever the
      draws. */
  lemma NoInfectedIsStable(etats: map<Coord, Etat>, inf: (Coord, nat) -> bool, rec: Coord -> bool)
    requires forall c :: c in etats ==> etats[c] != I
    ensures Step(etats, inf, rec) == etats
  {
    assert Infections(etats, etats.Keys, inf) == {};
    assert Recoveries(etats, etats.Keys, rec) == {};
  }

  /** The three counts of `maj_stats` add up to the number of cells. */
  lemma CountsSum(etats: map<Coord, Etat>)
    ensures Count(etats, S) + Count(etats, I) + Count(etats, R) == |etats|
  {
    var s := set c | c in etats && etats[c] == S;
    var i := set c | c in etats && etats[c] == I;
    var r := set c | c in etats && etats[c] == R;
    assert etats.Keys == s + i + r;
    assert s !! i && (s + i) !! r;
  }

  /** The grid `initialiser_grille` builds has exactly the n² cells of the
      block, each 'R' or 'S' and none 'I'. */
  lemma InitialGridShape(n: nat, immune: Coord -> bool)
    ensures InitialGrid(n, immune).Keys == Rect(n, n)
    ensures |InitialGrid(n, immune)| == n * n
    ensures forall c :: c in InitialGrid(n, immune) ==> InitialGrid(n, immune)[c] in {R, S}
    ensures Count(InitialGrid(n, immune), I) == 0
  {
    var g := InitialGrid(n, immune);
    assert g.Keys == Rect(n, n);
    RectCard(n, n);
    assert (set c | c in g && g[c] == I) == {};
  }

  /** The state of V3.py: `etats`, the side chosen at the last reset and the
      `auto_running` flag. */
  class Simulation {
    var etats: map<Coord, Etat>
    var n: nat
    var autoRunning: bool

    /** The keys of `etats` are exactly the cells of the n × n block. */
    ghost predicate Valid()
      reads this
    {
      etats.Keys == Rect(n, n)
    }

    /** The empty dict and the stopped simulation the module starts with. */
    constructor ()
      ensures Valid() && etats == map[] && n == 0 && !autoRunning
    {
      etats, n, autoRunning := map[], 0, false;
    }

    /** `initialiser_grille` for the side `size` chosen in the menu: stops the
        automatic run and fills the grid row by row. */
    method InitialiserGrille(size: nat, immune: Coord -> bool)
      modifies this
      ensures Valid() && n == size && !autoRunning
      ensures etats == InitialGrid(size, immune)
    {
      autoRunning := false;
      etats := map[];
      n := size;
      for l := 0 to size
        invariant etats == map c | c in Rect(l, size) :: if immune(c) then R else S
        invariant n == size && !autoRunning
      {
        for c := 0 to size
          invariant etats == map p | p in Rect(l, size) + RowPrefix(l, c) :: if immune(p) then R else S
          invariant n == size && !autoRunning
        {
          GrowRow(l, c, size);
          etats := etats[(l, c) := if immune((l, c)) then R else S];
        }
        GrowRect(l, size);
      }
    }

    /** `propagation`: gathers `changements` from the grid as it was before the
        step, then writes it back. `inf(u, d)` is the infection draw of
        infected cell `u` towards Moore entry `d`; `rec(u)` its recovery draw. */
    method Propagation(inf: (Coord, nat) -> bool, rec: Coord -> bool)
      requires Valid()
      modifies this
      ensures Valid() && n == old(n) && autoRunning == old(autoRunning)
      ensures etats == Step(old(etats), inf, rec)
    {
      var changements := CollectChangements(etats, inf, rec);
      ApplyIsStep(etats, inf, rec, changements);
      ApplyChangements(changements);
    }

    /** The loop that writes `changements` into `etats`. */
    method ApplyChangements(changements: map<Coord, Etat>)
      requires Valid() && changements.Keys <= etats.Keys
      modifies this
      ensures Valid() && n == old(n) && autoRunning == old(autoRunning)
      ensures etats == old(etats) + changements
    {
      var rest := changements.Keys;
      while rest != {}
        invariant rest <= changements.Keys
        invariant etats == old(etats) + map c | c in changements.Keys - rest :: changements[c]
        invariant n == old(n) && autoRunning == old(autoRunning)
        decreases rest
      {
        var coord :| coord in rest;
        etats := etats[coord := changements[coord]];
        rest := rest - {coord};
      }
      assert changements == map c | c in changements.Keys - rest :: changements[c];
    }

    /** `clic_canvas` on cell (l, c): an in-grid cell becomes 'I' whatever its
        state, 'R' included; an off-grid cell changes nothing. */
    method ClicCanvas(l: int, c: int)
      requires Valid()
      modifies this
      ensures Valid() && n == old(n) && autoRunning == old(autoRunning)
      ensures (l, c) in old(etats) ==> etats == old(etats)[(l, c) := I]
      ensures (l, c) !in old(etats) ==> etats == old(etats)
    {
      if (l, c) in etats {
        etats := etats[(l, c) := I];
      }
    }

    /** The counts `maj_stats` shows; they add up to n². */
    function Stats(): (r: (nat, nat, nat))
      reads this
      requires Valid()
      ensures r == (Count(etats, S), Count(etats, I), Count(etats, R))
      ensures r.0 + r.1 + r.2 == n * n
    {
      CountsSum(etats);
      RectCard(n, n);
      (Count(etats, S), Count(etats, I), Count(etats, R))
    }
  }

  /** The scan of `propagation`: visits every cell of the grid as it was
      before the step; `etats` itself is never written. */
  method CollectChangements(etats: map<Coord, Etat>, inf: (Coord, nat) -> bool, rec: Coord -> bool)
    returns (changements: map<Coord, Etat>)
    ensures IsChangements(etats, etats.Keys, inf, rec, changements)
  {
    changements := map[];
    var todo := etats.Keys;
    ghost var done: set<Coord> := {};
    while todo != {}
      invariant todo <= etats.Keys && done == etats.Keys - todo
      invariant IsChangements(etats, done, inf, rec, changements)
      decreases todo
    {
      var coord :| coord in todo;
      var next := VisitCell(etats, coord, inf, rec, changements);
      ScanStep(etats, done, coord, inf, rec, changements, next);
      changements := next;
      done := done + {coord};
      todo := todo - {coord};
    }
  }

  /** The scan predicate survives one more visited cell. */
  lemma ScanStep(etats: map<Coord, Etat>, done: set<Coord>, u: Coord, inf: (Coord, nat) -> bool, rec: Coord -> bool,
                 changements: map<Coord, Etat>, changements': map<Coord, Etat>)
    requires u in etats
    requires IsChangements(etats, done, inf, rec, changements)
    requires Recorded(etats, changements')
    requires changements'.Keys == changements.Keys
               + (if etats[u] == I then InfectionsFrom(etats, u, |MOORE|, inf) else {})
               + (if etats[u] == I && rec(u) then {u} else {})
    ensures IsChangements(etats, done + {u}, inf, rec, changements')
  {
    AddSource(etats, done, u, inf, rec);
  }

  /** One turn of the scan, for cell `u`: when it is infected, records 'I' for
      each Moore neighbour that is a 'S' key of `etats` and whose draw
      succeeds, then 'R' for `u` itself when its recovery draw succeeds. */
  method VisitCell(etats: map<Coord, Etat>, u: Coord, inf: (Coord, nat) -> bool,
                   rec: Coord -> bool, changements: map<Coord, Etat>)
    returns (changements': map<Coord, Etat>)
    requires u in etats && Recorded(etats, changements)
    ensures Recorded(etats, changements')
    ensures changements'.Keys == changements.Keys
              + (if etats[u] == I then InfectionsFrom(etats, u, |MOORE|, inf) else {})
              + (if etats[u] == I && rec(u) then {u} else {})
  {
    changements' := changements;
    if etats[u] == I {
      for d := 0 to |MOORE|
        invariant changements'.Keys == changements.Keys + InfectionsFrom(etats, u, d, inf)
        invariant Recorded(etats, changements')
      {
        AddDirection(etats, u, d, inf);
        var v := Neighbour(u, d);
        if v in etats && etats[v] == S {
          if inf(u, d) {
            changements' := changements'[v := I];
          }
        }
      }
      if rec(u) {
        changements' := changements'[u := R];
      }
    }
  }
}
