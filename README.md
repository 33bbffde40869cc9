# Routing network: a Dafny model

This project models the routing core of `main.cpp`: a network (`class Red`)
of named routers (`class Enrutador`) joined by weighted links, where every
router keeps a routing table (cost and next hop per destination) filled by a
single-source shortest-path search, and where cost and path queries read
those tables.

- `grafo.dfy` (module `Grafo`): paths over the directed link map, their
  costs, reachability and what a shortest cost is, with the facts the proofs
  use (extending and reversing a path, the potential bound behind every
  shortest-cost claim, uniqueness and symmetry of shortest costs).
- `orden.dfy` (module `Orden`): the order in which
  `priority_queue<pair<int, string>, ..., greater<...>>` hands out its
  entries, with the proof that a non-empty queue has exactly one entry to pop.
- `enrutador.dfy` (module `Enrutadores`): a router is a value (the network
  stores routers by value in a map); updating a table entry yields the
  updated router.
- `busqueda.dfy` (module `Busqueda`): the body of `ejecutarBusqueda`. The
  Dijkstra loop with its lazily discarded outdated entries is proved to find
  exactly the reachable routers with their shortest costs and a tree of
  predecessors. The walk back along predecessors is proved to yield the
  first hop of a shortest path.
- `red.dfy` (module `Redes`): the class `Red` with fields `enrutadores` and
  `enlaces` and one method per operation; the load of a topology; the path
  walk of `obtenerCamino`; and the theorems that connect the tables to
  shortest paths.
- `ejemplo.dfy` (module `Ejemplo`): the topology `main` writes when no file
  exists, loaded into a fresh network. The A-to-D cost is 8 and the path
  query returns a path from A to D of that cost.

Modelling choices:

- The distance `numeric_limits<int>::max()` ("not reached") is an absent key
  of the distance map, and an empty predecessor is an absent key.
- The scans over `std::map` pick any remaining element. Every contract holds
  whatever the order, so it also holds for the ascending key order of the
  source.
- The priority queue is a set of (distance, name) pairs, and each pop takes
  the least pair in the queue's own order. A set loses nothing here: a pair
  is pushed only when its distance is strictly below the router's current
  one (main.cpp:111-114), and distances only go down, so the same pair is
  never pushed twice.
- `Red::Valid()` is the class invariant. Every method except `AgregarEnlace`
  keeps it. `AgregarEnlace` keeps it when both endpoints are routers, which
  its only caller in `main.cpp` ensures (lines 74-76 add both routers before
  the link), and the cost is non-negative. It says:
  - every router is stored under its own name;
  - every link joins two routers;
  - costs are non-negative;
  - links come in pairs of equal cost;
  - no table holds a negative cost.
- A path query that would walk around a cycle forever is returned as
  `Cicla(prefix)`. A walk that stops returns `Termina(vector)`.

Behaviour of `main.cpp` that the model keeps as written:

- Tables are updated entry by entry and never cleared. After a load, a
  destination that is no longer reachable keeps its old entry. The
  `MismaRuta` clauses of `EjecutarBusqueda`, `ActualizarTablasDeEnrutamiento`
  and `CargarTopologia` state this.
- Tables are recomputed only by `cargarTopologia`. Adding or removing a
  router or a link leaves the tables as they were.
- A path query from a router to itself returns `[d]`, not an empty sequence.
- A path query that stops at a missing next hop returns the routers it has
  visited, not an empty sequence.

## Model

| member | source | states |
|---|---|---|
| Enrutadores.Enrutador.ActualizarTablaDeEnrutamiento | main.cpp:20-23 | the destination gets exactly the given cost and next hop (whether or not it had an entry); the name and every other destination's entries are unchanged |
| Enrutadores.Nuevo | main.cpp:18 | a router built from a name carries that name and two empty tables |
| Orden.MenorCadenaTransitiva | main.cpp:97-98 | the std::string order used to break distance ties in the queue is transitive |
| Orden.MenorCadenaTotal | main.cpp:97-98 | of two different names one is smaller |
| Orden.MenorCadenaIrreflexiva | main.cpp:97-98 | no name is smaller than itself |
| Orden.MenorParTransitiva | main.cpp:97-98 | the (distance, name) order of the queue is transitive |
| Orden.MenorParTotal | main.cpp:97-98 | of two different entries exactly one comes first |
| Orden.MinimoExiste | main.cpp:101-103 | a non-empty queue has a least entry for `top()` to return, and only one |
| Grafo.CaminoMasEnlace | main.cpp:110 | a path extended by one link is a path, and its cost grows by that link's cost |
| Grafo.EnlaceMasCamino | main.cpp:122-125 | a path with one link prepended is a path, and its cost grows by that link's cost |
| Grafo.CostoNoNegativo | main.cpp:107-117 | over non-negative costs every path costs at least 0 |
| Grafo.CotaFactible | main.cpp:107-117 | along any path, a potential that no link undercuts grows by at most the path's cost (the bound behind every shortest-cost claim) |
| Grafo.MinimoAUnoMismo | main.cpp:95 | over non-negative costs the shortest cost from a router to itself is 0 |
| Grafo.MinimoUnico | main.cpp:130-135 | two shortest costs between the same routers are equal |
| Grafo.Invertido | main.cpp:59-62 | the reversed sequence has the same length and holds the elements in reverse order |
| Grafo.CaminoInvertido | main.cpp:59-62 | over links stored in equal-cost pairs, a path read backwards is a path of the same cost |
| Grafo.MinimoSimetrico | main.cpp:59-62 | over links stored in equal-cost pairs, the shortest cost from b to a is the one from a to b |
| Busqueda.CadenaDePredecesores | main.cpp:111-113 | following the recorded predecessors from a reached router back to the origin gives a path from the origin whose cost is that router's distance |
| Busqueda.DescartarObsoleta | main.cpp:105 | popping an entry whose distance exceeds its router's current one and skipping it keeps the search invariant |
| Busqueda.Asentar | main.cpp:101-105 | popping the least entry while it is current settles a router that was not settled before, and no settled router is farther |
| Busqueda.Relajar | main.cpp:108-115 | recording a lower distance, the predecessor and the pushed entry for a link out of the popped router keeps the scan's invariant |
| Busqueda.Omitir | main.cpp:107-111 | a scanned link that is not out of the popped router, or that lowers nothing, keeps the scan's invariant |
| Busqueda.RelajarEnlaces | main.cpp:107-117 | after scanning every link, each link out of a settled router can no longer lower a distance, and the search invariant holds again |
| Busqueda.Terminar | main.cpp:101-118 | once the queue is empty, a router has a distance if and only if it is reachable from the origin, that distance is its shortest cost, and the predecessors form a tree rooted at the origin |
| Busqueda.CaminosMinimos | main.cpp:88-118 | the search returns distances for exactly the routers reachable from the origin, each non-negative and the shortest cost, together with a tree of predecessors over the links |
| Busqueda.SiguienteSalto | main.cpp:122-125 | the walk back stops at the origin for the origin and at the destination when the origin is its predecessor; otherwise it stops at a neighbour of the origin that starts a path to the destination of the destination's shortest cost (when no reached router other than the origin is named "") |
| Redes.EscribirTabla | main.cpp:120-127 | every reached destination gets its shortest cost and a correct first hop in the origin's router; every other destination keeps its entries; the router keeps its name |
| Redes.SaltoAlcanza | main.cpp:122-126 | a stored first hop is linked to the router and the destination is reachable from it |
| Redes.CostoPorSalto | main.cpp:122-126 | the shortest cost through a stored first hop is that link's cost plus the hop's own shortest cost |
| Redes.Red.constructor | main.cpp:26-29 | a new network has no routers and no links, is valid and its (absent) tables are up to date |
| Redes.Red.AgregarEnrutador | main.cpp:33-40 | a new name gets a router with empty tables, a known name changes nothing, and the result says which; links are untouched and the network stays valid |
| Redes.ConEnrutadorPrevio | main.cpp:33-40 | after adding a name the routers are the old ones plus that name, each router either the one before or a fresh one |
| Redes.Red.RemoverEnrutador | main.cpp:42-57 | a known router is removed together with exactly the links it is an endpoint of, the other links keep their costs, and the result says so; an unknown name changes nothing; the network stays valid |
| Redes.SinEnrutador | main.cpp:45-51 | the links left after the scan are exactly those without the removed router as an endpoint, with their costs, and pairs stay pairs |
| Redes.Red.AgregarEnlace | main.cpp:59-62 | both directions get the given cost, whatever they held; no other link and no router changes; the network stays valid when both routers exist and the cost is non-negative |
| Redes.ConEnlaceValido | main.cpp:59-62 | after adding a link both directions hold the cost, every other link is unchanged, and pairs stay pairs |
| Redes.Red.RemoverEnlace | main.cpp:64-67 | the links lose both directions between the two routers, present or not, and nothing else; the network stays valid |
| Redes.SinEnlace | main.cpp:64-67 | neither direction is left, every other link keeps its presence and cost, and pairs stay pairs |
| Redes.Red.EjecutarBusqueda | main.cpp:88-128 | the origin's tables hold the shortest cost and a correct first hop for every reachable destination; unreachable destinations keep their entries; links and every other router are unchanged; the network stays valid |
| Redes.Red.ActualizarTablasDeEnrutamiento | main.cpp:82-86 | every router's tables are up to date with the links; routers, names and links are unchanged; entries for unreachable destinations are kept |
| Redes.Red.CargarTopologia | main.cpp:69-80 | the routers become the old ones plus every name in the lines; the links become the old ones with each line's link set in both directions, later lines overriding earlier ones; every table is up to date; the network stays valid |
| Redes.Red.AgregarLinea | main.cpp:73-77 | one line adds both routers when new and then the link in both directions |
| Redes.CargaDeLinea | main.cpp:73-77 | loading one more line is loading the earlier lines and then that line's two routers and link |
| Redes.ConEnlacesValidos | main.cpp:73-77 | after loading, every line's link is present, every link is an old one or joins two named routers, pairs stay pairs, and non-negative line costs keep costs non-negative |
| Redes.CargadosPrevios | main.cpp:73-75 | loading adds exactly the named routers, new ones with empty tables, and leaves every existing router as it was |
| Redes.Red.ObtenerCosto | main.cpp:130-135 | the result is non-negative exactly when the origin's table has an entry for the destination, and -1 otherwise; on up-to-date tables and a reachable destination it is the shortest cost |
| Redes.Red.CostoAUnoMismo | main.cpp:130-146 | on up-to-date tables a router's cost to itself is 0 and it is its own next hop |
| Redes.Red.CostoSimetrico | main.cpp:130-135 | on up-to-date tables the cost from a to b is the cost from b to a |
| Redes.Red.PasoHaciaDestino | main.cpp:140-143 | on up-to-date tables the next hop towards a reachable destination is a linked router from which the destination is reachable, and the cost is that link's cost plus the hop's cost |
| Redes.Red.Avanza | main.cpp:140-143 | over positive costs one step of the path walk keeps it heading for the destination: the new router is strictly cheaper than every router already pushed, and the pushed routers form a path whose cost plus the remaining cost is the origin's cost |
| Redes.Red.RecorridoSigue | main.cpp:140-143 | a walk that has not stopped pushes its current router and remains a walk along the stored next hops |
| Redes.Red.RecorridoFiable | main.cpp:137-146 | on up-to-date tables over positive costs every walk towards a reachable destination is heading for it, so it never repeats a router and never meets a missing entry |
| Redes.Red.Salto | main.cpp:142 | reading a next hop inserts nothing and gives "" for a missing entry; on up-to-date tables a router has an entry for every destination it can reach, and its hop for itself is itself |
| Redes.Red.ObtenerCamino | main.cpp:137-146 | the answer is `[d]` when origin and destination coincide; otherwise it is the walk along the stored next hops, ending with the destination, or stopped at a missing entry, or reported as a cycle when it comes back to a pushed router |
| Redes.Red.CaminoMinimo | main.cpp:137-146 | on up-to-date tables over positive costs with no router named "", the path query for a reachable destination ends, reaches the destination, and returns a path whose cost is the reported cost |
| Ejemplo.EjemploCargado | main.cpp:149-157 | loading the default topology gives routers A, B, C, D and the ten directed links of its five lines |
| Ejemplo.CostoDeEjemplo | main.cpp:149-157 | the default links are positive and the shortest cost from A to D over them is 8 |
| Ejemplo.CaminoDeEjemplo | main.cpp:151-154 | A-B-D is a path of cost 8 over the default links |
| Ejemplo.CotaDeEjemplo | main.cpp:149-157 | no path from A to D over the default links costs less than 8 |
| Ejemplo.RedDeEjemplo | main.cpp:159-169 | loading the default topology into a new network gives a new valid network with routers A, B, C, D, the default links and up-to-date tables, which the caller may go on changing |
| Ejemplo.ConsultasDeEjemplo | main.cpp:197-227 | on that network the cost query from A to D gives 8 and the path query gives a path from A to D of cost 8 |

## Left out

- Console output, the menu loop and `cin`. `AgregarEnrutador` and `RemoverEnrutador` return a flag that stands for which message is printed.
- Reading the topology file. `CargarTopologia` takes the lines already parsed. A line that fails to parse, which ends the source's read loop, is not modelled. Writing the default file becomes `LineasDeEjemplo`.
- `std::map::operator[]` inserting a default element. In the source, `obtenerCosto` and `obtenerCamino` called with an unknown name add a default router (named "") under that name. The model reads without inserting: the cost is -1 and the next hop is "".
- The 32-bit `int` of costs and distances. Costs are unbounded integers, so `distancias[u] + costo` overflowing past `numeric_limits<int>::max()` is not modelled.
- Redes.Red.AgregarEnlace: accepts any names and costs, as the source does. It promises `Valid()` only when both routers exist and the cost is non-negative. In the source, a link to an unknown router would make the search write a 0 distance through `operator[]`. The model does not follow a network in that state.
- Redes.Red.CargarTopologia: requires non-negative costs in the lines, where the source accepts any `int`. With a negative link reachable from a router, that router's search in the source never settles: each pop lowers the distances at the two ends of that link again (main.cpp:110-114) until the `int` addition at line 110 overflows. The termination of the model's search (`Busqueda.CaminosMinimos`, through `NoNegativos` in `Valid()`) rests on this requirement.
- Redes.Red.EjecutarBusqueda: requires a valid network and an origin that is a router. The source calls it only for existing routers, from `actualizarTablasDeEnrutamiento`.
- Redes.Red.RemoverEnrutador, Redes.Red.RemoverEnlace, Redes.Red.AgregarEnrutador, Redes.Red.ActualizarTablasDeEnrutamiento: require the class invariant `Valid()`. Every method but `AgregarEnlace` keeps it, from the empty network on; `AgregarEnlace` keeps it only for a link between routers at a non-negative cost.
- Redes.Red.CaminoMinimo: proves termination and shortest paths only for positive costs and no router named "". With zero-cost links, next hops chosen among equal-cost routes could point at each other. A router named "" reads as "no next hop". `ObtenerCamino` itself covers every case.
- Busqueda.SiguienteSalto: promises the first hop only when no reached router other than the origin is named "". Such a router is taken by the source's walk for "no predecessor".
- Redes.Red.ObtenerCamino: a walk that would never stop is returned as `Cicla`, not modelled as non-termination.
- Redes.Red.ObtenerCamino: the insertions of `enrutadores[actual].siguienteSalto[destino]` (main.cpp:142) are not modelled. A missing entry is stored as "" in the source. A stale next hop that names a router removed since the last load brings that router back as a default router named ""; a later `agregarEnrutador` of that name then reports that it already exists, where the model's `AgregarEnrutador` adds it.
- Ejemplo.ConsultasDeEjemplo: states the cost and the endpoints of the A-to-D path, not which of the two routes of cost 8 (A-B-D or A-B-C-D) the tie-breaking of the search picks.
