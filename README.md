# Grid epidemic simulators, modelled in Dafny

This project models the simulation engines of three small grid-epidemic
simulators written in Python with tkinter. The window, buttons, sliders and
canvas drawing are not modelled; the state each engine keeps in its global
dicts and the steps that update that state are.

- `sources/mainV2.py`, the **two-set infection grid** (module `TwoSetGrid`,
  file `main_v2.dfy`). A 10 × 10 grid `cases` holds a healthy set
  `cases_soignees` and an infected set `cases_infectees`. Every other cell is
  immune. `propagation` spreads infection from every infected cell to the
  healthy cells of its `directions` neighbourhood: the cell itself and its
  four axis neighbours. There is no recovery.
- `sources/V3.py`, the **S/I/R grid** (module `SirGrid`, file `v3.dfy`).
  `etats` maps each cell of an n × n grid to 'S', 'I' or 'R'. `propagation`
  scans the grid as it was before the step and gathers S→I infections over
  the eight Moore neighbours and I→R recoveries in `changements`. It writes
  them back only after the scan.
- `sources/mainv6/mainV6.py`, the **mobile agents** (module `Agents`, file
  `main_v6.dfy`). A terrain `etats_sol` of 15 × 15 'S'/'F' cells carries a
  population `persos` of agents: id → row, column and health. One turn has
  three phases, each working on the result of the one before:
  1. each agent may move one cell;
  2. agents whose hitboxes meet pass on the infection, pair by pair in key
     order, each infection visible to the later pairs;
  3. each infected agent may die.

The shared file `grid.dfy` (module `Grid`) defines cells and the rectangular
blocks that the nested `for l … for c …` loops fill.

Each simulator is a `class Simulation` with the source's global dicts as
fields. Its methods change them in place. Each class has a `Valid()`
invariant:
- mainV2: healthy and infected are disjoint subsets of `cases`.
- V3: `etats` has exactly the n × n keys.
- mainV6: `ordre` lists each agent once and every agent is on the terrain.

Each method's `ensures` ties the new state to a specification function of
the old state (`NewlyInfected`, `Step`, `Moved`, `Collided`, `Mortality`,
`InitialGrid`, …). The lemmas beside those functions prove what the
simulators promise.

Every draw `random.random() < p`, `random.choice` and `random.randint` is an
oracle parameter, keyed by what the draw is for. Examples:
- `draw(c, d)` is the infection draw for infected cell `c` and table entry `d`.
- `move(id)` and `dir(id)` are the movement draws of agent `id`.
- `place(k)` is the cell of the k-th agent created.

So every property holds for every outcome of the random draws. A Python
dict's insertion order matters in mainV6, because the pair loop of
`gerer_collisions` runs in that order. The model keeps that order as the
field `ordre: seq<int>`. `tuer_personnage` removes the id from it, and
`starting_grid` appends ids in creation order. The k-th agent's canvas id
is written `base + k`. Three loops walk `ordre` in sequence: the movement
loop of `deplacer_tous`, the pair loop of `gerer_collisions` and the mortality
loop of `gerer_mortalite` over its copy of the keys. The loops that fill a
grid run by row and column index, as the source's `range` loops do. Only the
loops of mainV2.py and V3.py over a set or over a map's entries pick their
elements in any order. These are the scan over the infected cells, the
write-back of `nouveaux_infectes`, the scan over `etats` and the write-back of
`changements`, and none of them depends on the order.

## Model

| member | source | states |
|---|---|---|
| Grid.RectCard | sources/mainV2.py:113-114 | the `for i in range(n): for j in range(n)` block holds exactly rows × cols cells |
| TwoSetGrid.NewlyInfected | sources/mainV2.py:149-156 | every cell a step infects was healthy, and lies at a `directions` offset from an infected source whose draw succeeded |
| TwoSetGrid.CollectNewlyInfected | sources/mainV2.py:149-156 | the scan loop over infected cells and directions gathers exactly `NewlyInfected` of the pre-step sets, so a cell infected this step does not spread in the same step |
| TwoSetGrid.PossibleIffSomeSpread | sources/mainV2.py:136-156 | when `propagation_possible` is false no draw can infect anything; when it is true the step whose draws all succeed infects some cell |
| TwoSetGrid.StepKeepsPartition | sources/mainV2.py:159-162 | one step keeps healthy and infected disjoint subsets of `cases`, never shrinks infected, leaves every immune cell immune, and keeps healthy + infected + immune = len(cases) |
| TwoSetGrid.MoveToInfected | sources/mainV2.py:159-162 | moving any subset of the healthy cells to the infected set keeps the partition and the three counts' sum |
| TwoSetGrid.ImmuneCount | sources/mainV2.py:96 | the immune count `len(cases) - len(cases_soignees) - len(cases_infectees)` is the number of cells in neither set |
| TwoSetGrid.CentreScenario | sources/mainV2.py:149-156 | on a 5 × 5 grid with one infected centre and every draw succeeding, exactly its four axis neighbours are infected and nothing two steps away |
| TwoSetGrid.CentreReaches | sources/mainV2.py:151-156 | the four axis neighbours of the centre are infected in that scenario |
| TwoSetGrid.CentreOnly | sources/mainV2.py:151-156 | nothing else is infected in that scenario |
| TwoSetGrid.Possible | sources/mainV2.py:136-142 | the condition `propagation_possible` looks for: an infected cell with a healthy cell at a `directions` offset; PossibleIffSomeSpread relates it to the step |
| TwoSetGrid.Simulation.constructor | sources/mainV2.py:87-89 | the three dicts `cases`, `cases_soignees` and `cases_infectees` start empty; the step counter, set at line 10, starts at 0 |
| TwoSetGrid.Simulation.StartingGrid | sources/mainV2.py:104-131 | after a reset `cases` is exactly the TAILLE_GRILLE² cells, the healthy set is the cells whose draw succeeded, nothing is infected and the counter is 0 |
| TwoSetGrid.Simulation.PropagationPossible | sources/mainV2.py:136-142 | returns true exactly when some infected cell has a healthy cell at a `directions` offset |
| TwoSetGrid.Simulation.Propagation | sources/mainV2.py:145-162 | the counter goes up by one; the cells `NewlyInfected` computes from the pre-step sets move from healthy to infected; `cases` is unchanged |
| TwoSetGrid.Simulation.ApplyInfections | sources/mainV2.py:159-162 | the write-back loop moves exactly the collected cells from healthy to infected |
| TwoSetGrid.Simulation.Clic | sources/mainV2.py:190-198 | a healthy target becomes infected; an immune, infected or off-grid target leaves everything unchanged |
| TwoSetGrid.Simulation.Stats | sources/mainV2.py:94-101 | the displayed healthy, infected and immune counts add up to len(cases) |
| SirGrid.Infections | sources/V3.py:59-67 | every infection target is a grid cell that was 'S' before the step |
| SirGrid.Recoveries | sources/V3.py:69-71 | every recovery target is a grid cell that was 'I' before the step |
| SirGrid.TargetsDisjoint | sources/V3.py:65-75 | no cell is both an infection and a recovery target, so the order `changements` is written back in does not matter |
| SirGrid.ApplyIsStep | sources/V3.py:73-75 | writing the collected `changements` into `etats` gives the synchronous `Step` of the pre-step grid |
| SirGrid.StepTransitions | sources/V3.py:56-76 | a step keeps the keys; the only changes are S→I for a Moore neighbour of a pre-step 'I' cell and I→R; 'R' never changes |
| SirGrid.AllInfectNoneRecover | sources/V3.py:56-76 | with every infection draw succeeding and none for recovery, a cell is 'I' after the step exactly when it was 'I', or was 'S' next to a pre-step 'I' cell |
| SirGrid.NoDrawNoChange | sources/V3.py:56-76 | when no draw succeeds, the step leaves `etats` unchanged |
| SirGrid.AllRecover | sources/V3.py:69-71 | when every recovery draw succeeds, every pre-step 'I' cell is 'R' afterwards |
| SirGrid.NoInfectedIsStable | sources/V3.py:59-60 | a grid without 'I' cells is a fixed point of the step, whatever the draws |
| SirGrid.CountsSum | sources/V3.py:82-85 | the 'S', 'I' and 'R' counts add up to len(etats) |
| SirGrid.InitialGridShape | sources/V3.py:34-47 | the new grid has exactly the n² cells of [0,n)², each 'R' or 'S', none 'I' |
| SirGrid.CollectChangements | sources/V3.py:56-71 | the scan loop over `etats` builds a `changements` whose keys are the infection and recovery targets, mapped to 'I' and 'R' |
| SirGrid.ScanStep | sources/V3.py:59-71 | visiting one more cell keeps the scan's invariant |
| SirGrid.VisitCell | sources/V3.py:60-71 | one cell's turn of the scan: a cell that was 'I' adds its susceptible Moore neighbours whose draws succeed, recorded as 'I', and adds itself as 'R' when its recovery draw succeeds; other cells add nothing |
| SirGrid.Step | sources/V3.py:56-76 | the grid after one `propagation`: recovery targets become 'R', infection targets 'I', every other cell keeps its state; StepTransitions and ApplyIsStep state its properties |
| SirGrid.InitialGrid | sources/V3.py:34-47 | the grid `initialiser_grille` builds; InitialGridShape states its keys and values |
| SirGrid.Count | sources/V3.py:82-85 | the count of cells in one state shown by `maj_stats`; CountsSum adds the three up |
| SirGrid.Simulation.constructor | sources/V3.py:10-12 | the module starts with an empty grid and `auto_running` false |
| SirGrid.Simulation.InitialiserGrille | sources/V3.py:20-48 | stops the auto run and builds `InitialGrid` for the chosen side |
| SirGrid.Simulation.Propagation | sources/V3.py:50-78 | `etats` becomes `Step` of the pre-step grid and keeps its keys |
| SirGrid.Simulation.ApplyChangements | sources/V3.py:73-76 | the write-back loop yields `old(etats) + changements` |
| SirGrid.Simulation.ClicCanvas | sources/V3.py:90-97 | an in-grid cell becomes 'I' whatever its prior state, including 'R'; an off-grid target is a no-op |
| SirGrid.Simulation.Stats | sources/V3.py:80-86 | the three counts add up to n² |
| Agents.HitboxFromCells | sources/mainv6/mainV6.py:74 | the comprehension keeps exactly the in-bounds cells at the table's offsets |
| Agents.NearCells | sources/mainv6/mainV6.py:20 | the `directions` offsets are exactly the offsets of Manhattan length at most one |
| Agents.HitboxCells | sources/mainv6/mainV6.py:72-74 | the hitbox holds the agent's own cell and its axis neighbours that lie on the terrain, and nothing else |
| Agents.CollisionSymmetric | sources/mainv6/mainV6.py:76-77 | collision does not depend on the order of the two agents |
| Agents.CollisionIffClose | sources/mainv6/mainV6.py:72-77 | two agents on the terrain collide exactly when their cells are at most two axis steps apart |
| Agents.CloseCollide | sources/mainv6/mainV6.py:76-77 | two agents at most two steps apart share a hitbox cell |
| Agents.CollideClose | sources/mainv6/mainV6.py:76-77 | two colliding agents are at most two steps apart |
| Agents.MeetingCell | sources/mainv6/mainV6.py:72-74 | between two cells at most two steps apart lies a terrain cell next to both |
| Agents.Infect | sources/mainv6/mainV6.py:64-65 | the agent becomes infected, nobody else changes, and an unknown id changes nothing |
| Agents.Kill | sources/mainv6/mainV6.py:67-70 | the agent leaves the population, nobody else changes, and an unknown id changes nothing |
| Agents.WithoutElems | sources/mainv6/mainV6.py:70 | deleting a key removes it from the key order and keeps every other key |
| Agents.WithoutDistinct | sources/mainv6/mainV6.py:70 | the key order still has no repeats after a deletion |
| Agents.MoveOneShape | sources/mainv6/mainV6.py:105-110 | one agent's move keeps its health, changes one axis by at most one, stays on the terrain, happens exactly when the draw succeeds and the target is in bounds, and otherwise leaves the agent in place |
| Agents.PartMovedNext | sources/mainv6/mainV6.py:105-110 | in a key order without repeats, the agent at index i is still in place before its turn, and its turn takes the first i moves to the first i + 1 |
| Agents.MovedKeepsPopulation | sources/mainv6/mainV6.py:103-111 | `deplacer_tous` keeps every id and every health, keeps agents on the terrain and moves each by at most one step |
| Agents.PartMovedBounds | sources/mainv6/mainV6.py:105 | before the loop nobody has moved; after every id has had its turn the population is `Moved` |
| Agents.PartMovedStep | sources/mainv6/mainV6.py:105-110 | one more agent's turn updates only that agent |
| Agents.CollideOneInfects | sources/mainv6/mainV6.py:96-101 | one pair never adds, removes, moves or heals anyone, and infects a healthy agent only when the other agent of the pair is infected and their hitboxes meet |
| Agents.CollideOneEvolves | sources/mainv6/mainV6.py:96-101 | one pair changes health only, and only from healthy to infected, for one of its two agents |
| Agents.CollideOneJustified | sources/mainv6/mainV6.py:97-101 | after one pair, each newly infected agent collides with another agent infected after the pair |
| Agents.JustifiedTrans | sources/mainv6/mainV6.py:94-101 | a collision seen earlier in the pair loop still holds later, since positions do not change, and an infected partner stays infected |
| Agents.RowPassInfects | sources/mainv6/mainV6.py:95-101 | one row of the pair loop keeps ids and positions, never heals, and each agent it infects collides with another agent infected at the end of the row |
| Agents.CollisionsInfect | sources/mainv6/mainV6.py:92-101 | the whole pair loop never adds, removes, moves or heals an agent, and infects a healthy agent only when its hitbox meets that of another agent infected at the end of the loop |
| Agents.ChainExtend | sources/mainv6/mainV6.py:97-101 | a chain of contagion grows by an agent whose hitbox meets that of the chain's last agent |
| Agents.CollideOneRooted | sources/mainv6/mainV6.py:96-101 | one pair keeps every infected agent at the end of a chain of contagion that starts at an agent infected before the pair loop |
| Agents.RowPassRooted | sources/mainv6/mainV6.py:95-101 | one row of the pair loop keeps every infected agent at the end of such a chain |
| Agents.RootedRefl | sources/mainv6/mainV6.py:92-93 | before the pair loop every infected agent is a chain of length one |
| Agents.CollisionsRooted | sources/mainv6/mainV6.py:92-101 | after the pair loop every infected agent is reached from an agent infected before it through agents whose hitboxes meet pair by pair, so no infection is justified in a circle |
| Agents.NoInfectedNoCollision | sources/mainv6/mainV6.py:92-101 | without an infected agent the pair loop changes nothing |
| Agents.ChainScenario | sources/mainv6/mainV6.py:92-101 | infections inside the pair loop are visible to later pairs: agent 1 infects agent 2, which then infects agent 3, though 1 and 3 never collide |
| Agents.PairClose | sources/mainv6/mainV6.py:97-101 | two agents with different health at most two steps apart both end up infected |
| Agents.PairFar | sources/mainv6/mainV6.py:97-99 | two agents more than two steps apart are left unchanged |
| Agents.MortalityShape | sources/mainv6/mainV6.py:81-90 | mortality never adds an agent or changes a survivor, never removes a healthy agent, and removes exactly the infected agents whose draw succeeds |
| Agents.PartMortalityBounds | sources/mainv6/mainV6.py:85-87 | before the loop nobody has died; after every id of the copied list the population is `Mortality` |
| Agents.PartMortalityStep | sources/mainv6/mainV6.py:87-90 | one more death draw removes that agent exactly when it dies |
| Agents.SurvivorsElems | sources/mainv6/mainV6.py:85-90 | the key order after mortality lists exactly the ids that did not die |
| Agents.CountsSum | sources/mainv6/mainV6.py:121-124 | healthy plus infected is the number of living agents |
| Agents.StepShrinks | sources/mainv6/mainV6.py:126-130 | a turn never adds an agent, keeps every agent on the terrain, never heals an infected agent, and leaves an empty population empty |
| Agents.Depopulation | sources/mainv6/mainV6.py:126-130 | a lone infected agent whose death draw succeeds leaves an empty population after one turn |
| Agents.IdRangeCard | sources/mainv6/mainV6.py:160-164 | the NB_PERSONNAGES loop creates NB_PERSONNAGES distinct ids |
| Agents.PlacedValid | sources/mainv6/mainV6.py:159-164 | the created agents, listed in creation order, have distinct ids, match the keys of `persos` and lie on the terrain |
| Agents.InfectedIds | sources/mainv6/mainV6.py:166-167 | the infected agents are exactly the first min(NB_INFECTES_DEPART, NB_PERSONNAGES) created |
| Agents.InitialShape | sources/mainv6/mainV6.py:159-167 | after `starting_grid`: NB_PERSONNAGES agents, all on the terrain, min(NB_INFECTES_DEPART, NB_PERSONNAGES) infected and the rest healthy |
| Agents.InitialTerrainShape | sources/mainv6/mainV6.py:153-157 | the terrain covers the TAILLE_GRILLE² cells, each 'S' exactly when its draw succeeds and 'F' otherwise |
| Agents.MortalityLoopStep | sources/mainv6/mainV6.py:87-90 | one turn of the mortality loop keeps its invariant, whether the agent dies or not |
| Agents.MortalityStep | sources/mainv6/mainV6.py:87-90 | removing a dying agent keeps the population and the key order in step |
| Agents.WithoutMiddle | sources/mainv6/mainV6.py:70 | deleting a key that occurs once removes just that occurrence from the key order |
| Agents.HitboxFrom | sources/mainv6/mainV6.py:74 | the comprehension from table entry k on: the cells at those `directions` offsets that lie on the terrain, in table order; HitboxFromCells states its contents |
| Agents.Hitbox | sources/mainv6/mainV6.py:72-74 | `obtenir_hitbox` of an agent at a cell, the comprehension over the whole table; HitboxCells states that it is the cell and its axis neighbours on the terrain |
| Agents.Meets | sources/mainv6/mainV6.py:77 | the `isdisjoint` test on the two hitboxes turned into sets, negated |
| Agents.Collision | sources/mainv6/mainV6.py:76-77 | `verifier_collision` of two agents, on their cells; CollisionSymmetric and CollisionIffClose state its meaning |
| Agents.Without | sources/mainv6/mainV6.py:70 | the dict's key order after `del persos[pid]`; WithoutElems, WithoutDistinct and WithoutMiddle state what it keeps |
| Agents.MoveOne | sources/mainv6/mainV6.py:106-110 | one agent's turn of `deplacer_tous`, from its movement draw and its direction; MoveOneShape states its effect |
| Agents.Moved | sources/mainv6/mainV6.py:103-110 | the population after `deplacer_tous`, each agent taking `MoveOne` with its own draws; MovedKeepsPopulation states its properties |
| Agents.CollideOne | sources/mainv6/mainV6.py:96-101 | one pair of `gerer_collisions`, with the three tests of the source in one guard; CollideOneInfects, PairClose and PairFar state its effect |
| Agents.RowPass | sources/mainv6/mainV6.py:95-101 | the pairs (i, i+1), …, (i, j-1) applied in order, each on the result of the one before |
| Agents.Collisions | sources/mainv6/mainV6.py:94-101 | the first i rows of the pair loop, each on the result of the one before |
| Agents.Collided | sources/mainv6/mainV6.py:92-101 | the population after `gerer_collisions` over the given key order; CollisionsInfect and CollisionsRooted state its properties |
| Agents.Dies | sources/mainv6/mainV6.py:88-89 | the test of the mortality loop: the agent is still there, infected, and its death draw succeeds |
| Agents.Mortality | sources/mainv6/mainV6.py:81-90 | the population after `gerer_mortalite`; MortalityShape states what it removes and keeps |
| Agents.Survivors | sources/mainv6/mainV6.py:85-90 | the key order after `gerer_mortalite`; SurvivorsElems states that it lists the ids that did not die |
| Agents.StepPersos | sources/mainv6/mainV6.py:126-130 | one `propagation` turn: nothing on an empty population, else move, collide in key order, then mortality; StepShrinks states its properties |
| Agents.Count | sources/mainv6/mainV6.py:122-123 | the `sum(1 for p in persos.values() if …)` count of agents in one health state; CountsSum adds the two up |
| Agents.InitialTerrain | sources/mainv6/mainV6.py:153-157 | the terrain drawn by `starting_grid`; InitialTerrainShape states its keys and values |
| Agents.Placed | sources/mainv6/mainV6.py:159-167 | the first n agents `starting_grid` creates, the first `infected` of them infected; PlacedValid and InfectedIds state its properties |
| Agents.InitialPersos | sources/mainv6/mainV6.py:159-167 | the population `starting_grid` creates; InitialShape states its size, placement and health |
| Agents.Simulation.constructor | sources/mainv6/mainV6.py:60 | the dicts `etats_sol` and `persos` start empty, so does the key order; `auto_running`, set at line 11, starts false |
| Agents.Simulation.InfecterPersonnage | sources/mainv6/mainV6.py:64-65 | `persos` becomes `Infect` of the old population; the key order and the terrain are unchanged |
| Agents.Simulation.TuerPersonnage | sources/mainv6/mainV6.py:67-70 | `persos` becomes `Kill` of the old population and the id leaves the key order; an unknown id changes nothing |
| Agents.Simulation.DeplacerTous | sources/mainv6/mainV6.py:103-111 | the loop over the agents in key order leaves `Moved` of the old population and keeps the invariant |
| Agents.Simulation.MoveAgent | sources/mainv6/mainV6.py:106-110 | one loop turn replaces just that agent by its `MoveOne` |
| Agents.Simulation.GererCollisions | sources/mainv6/mainV6.py:92-101 | the nested pair loop leaves `Collided` of the old population in the old key order and keeps the invariant |
| Agents.Simulation.CollidePair | sources/mainv6/mainV6.py:96-101 | one loop turn applies `CollideOne` to that pair |
| Agents.Simulation.GererMortalite | sources/mainv6/mainV6.py:81-90 | the loop over a copy of the ids leaves `Mortality` of the old population, with the survivors in their old order |
| Agents.Simulation.MortalityTurn | sources/mainv6/mainV6.py:88-90 | an agent that is still there, infected and whose draw succeeds is killed; otherwise nothing changes |
| Agents.Simulation.Propagation | sources/mainv6/mainV6.py:126-130 | nothing changes on an empty population; otherwise the population becomes `StepPersos` (move, then collide in key order, then mortality); the terrain never changes |
| Agents.Simulation.StartingGrid | sources/mainv6/mainV6.py:147-167 | stops the auto run, builds `InitialTerrain`, and creates `InitialPersos` with the ids in creation order |
| Agents.Simulation.DrawTerrain | sources/mainv6/mainV6.py:153-157 | the nested terrain loops build `InitialTerrain` |
| Agents.Simulation.PlaceAgents | sources/mainv6/mainV6.py:159-164 | the placement loop creates NB_PERSONNAGES healthy agents, listed in creation order |
| Agents.Simulation.Stats | sources/mainv6/mainV6.py:121-124 | the healthy and infected counts add up to the number of living agents |

## Left out

- The tkinter interface: windows, frames, labels, buttons, sliders, colours, canvas rectangles and images, and the `PhotoImage` loading in mainV6.py. Canvas handles stored as dict values (`cases` in mainV2.py, `rects` in V3.py and mainV6.py) are drawing state only. `cases` is modelled as its key set.
- Rendering: `rafraichir_visuel` and the `canvas.itemconfig`, `canvas.coords` and `canvas.delete` calls. `maj_stats` is modelled as its counts, not as label text.
- The timer loops and toggles `propagation_auto`, `toggle_auto`, `boucle_auto`, `boucle_simu` and `toggle_confinement`. They are event-loop orchestration around `propagation`, and so is the `auto_running` flag they flip; the flag is modelled only where a reset clears it.
- Pixel-to-cell conversion in the click handlers, which is float arithmetic tied to the canvas. `Clic` and `ClicCanvas` take the cell.
- Probabilities, slider values and the confinement divisor, which are floating point. Every random draw is an oracle argument, so the model does not state any distribution.
- Canvas ids: Tk hands out consecutive ids, which the model writes as `base + k` for the k-th agent created by `starting_grid`.
- The commented-out `propagation` and `clic` at the end of mainV2.py, which are dead code.
- V3.py reads the grid side from a menu and the immune share from a slider; `InitialiserGrille` takes the side as a parameter and the immune draws as an oracle.
- Behaviour kept as the code has it:
  - `clic_canvas` in V3.py sets any in-grid cell to 'I', whatever its state, 'R' and 'I' included (V3.py:94-95).
  - `starting_grid` in mainV6.py infects the first min(NB_INFECTES_DEPART, NB_PERSONNAGES) agents it created (mainV6.py:166-167).
  - None of the three programs range-checks a grid size, an agent count or a probability, and neither does the model.
