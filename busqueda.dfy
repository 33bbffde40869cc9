/**
 * The single-source search a router runs over the network's links
 * (`Red::ejecutarBusqueda`): a Dijkstra loop over a priority frontier of
 * (distance, name) pairs with lazy discarding of outdated entries, then, per
 * reached destination, a walk back along the predecessor map to find the
 * first hop.
 *
 * A distance of `numeric_limits<int>::max()` ("not reached") is an absent key
 * of `dist`; an empty predecessor string ("none") is an absent key of `prev`.
 */
module Busqueda {
  import opened Grafo
  import Orden

  /** `anteriores[s]`: the predecessor recorded for `s`, or "" when there is none. */
  function Anterior(prev: map<string, string>, s: string): string {
    if s in prev then prev[s] else ""
  }

  /**
   * The shape the search leaves its maps in. Every reached router other than
   * the origin has a predecessor, reached through a link whose cost is the
   * difference of the two distances; `orden` numbers the routers in the
   * order the search settled them, and a predecessor was always settled
   * before the router it precedes, so following predecessors ends.
   */
  ghost predicate ArbolDePredecesores(
    enlaces: Enlaces, origen: string, dist: map<string, int>, prev: map<string, string>, orden: map<string, nat>)
  {
    && origen in dist && dist[origen] == 0 && origen !in prev
    && (forall v :: v in dist ==> v in orden && (v == origen || v in prev))
    && (forall v {:trigger prev[v]} :: v in prev ==>
          && v in dist && prev[v] in dist && v in orden && prev[v] in orden
          && orden[prev[v]] < orden[v]
          && (prev[v], v) in enlaces
          && dist[v] == dist[prev[v]] + enlaces[(prev[v], v)])
  }

  /** The path from the origin to `v` read off the predecessor map has cost `dist[v]`. */
  lemma {:induction false} CadenaDePredecesores(
    enlaces: Enlaces, origen: string, dist: map<string, int>, prev: map<string, string>, orden: map<string, nat>,
    v: string)
    returns (p: seq<string>)
    requires ArbolDePredecesores(enlaces, origen, dist, prev, orden) && v in dist
    ensures Entre(enlaces, p, origen, v) && CostoDeCamino(enlaces, p) == dist[v]
    decreases orden[v]
  {
    if v == origen {
      p := [origen];
    } else {
      var u := prev[v];
      var q := CadenaDePredecesores(enlaces, origen, dist, prev, orden, u);
      CaminoMasEnlace(enlaces, q, v);
      p := q + [v];
    }
  }

  /** Link `e` out of a settled router can no longer lower its target's distance. */
  ghost predicate Relajado(enlaces: Enlaces, dist: map<string, int>, e: (string, string))
    requires e in enlaces && e.0 in dist
  {
    e.1 in dist && dist[e.1] <= dist[e.0] + enlaces[e]
  }

  /** Distances are non-negative, only for routers, and 0 at the origin. */
  ghost predicate Distancias(nombres: set<string>, origen: string, dist: map<string, int>) {
    && origen in dist && dist[origen] == 0
    && (forall v :: v in dist ==> v in nombres && dist[v] >= 0)
  }

  /** `hechos` are the settled routers, numbered by `orden` in settling order. */
  ghost predicate Asentados(dist: map<string, int>, hechos: set<string>, orden: map<string, nat>, cuenta: nat) {
    && hechos <= dist.Keys && orden.Keys == hechos
    && (forall v :: v in orden ==> orden[v] < cuenta)
  }

  /**
   * Every frontier entry is at least its router's distance, and strictly
   * more for a settled router; every unsettled reached router has its
   * current distance in the frontier; no settled distance exceeds an entry.
   */
  ghost predicate Frontera(dist: map<string, int>, cola: set<Orden.Entrada>, hechos: set<string>) {
    && (forall q :: q in cola ==> q.1 in dist && q.0 >= dist[q.1] && (q.1 in hechos ==> q.0 > dist[q.1]))
    && (forall v :: v in dist && v !in hechos ==> (dist[v], v) in cola)
    && (forall y, q :: y in hechos && q in cola ==> y in dist && dist[y] <= q.0)
  }

  /**
   * Every reached router but the origin has a settled predecessor, linked to
   * it at the difference of their distances and settled before it.
   */
  ghost predicate Predecesores(
    enlaces: Enlaces, origen: string, dist: map<string, int>, prev: map<string, string>,
    hechos: set<string>, orden: map<string, nat>)
  {
    && origen !in prev
    && (forall v :: v in dist ==> v == origen || v in prev)
    && (forall v {:trigger prev[v]} :: v in prev ==>
          && v in dist && prev[v] in dist && prev[v] in hechos && prev[v] in orden
          && (prev[v], v) in enlaces
          && dist[v] == dist[prev[v]] + enlaces[(prev[v], v)]
          && (v in orden ==> orden[prev[v]] < orden[v]))
  }

  /** What holds of the search state between two pops, apart from the links already relaxed. */
  ghost predicate Estado(
    enlaces: Enlaces, nombres: set<string>, origen: string,
    dist: map<string, int>, prev: map<string, string>, cola: set<Orden.Entrada>,
    hechos: set<string>, orden: map<string, nat>, cuenta: nat)
  {
    && Distancias(nombres, origen, dist)
    && Asentados(dist, hechos, orden, cuenta)
    && Frontera(dist, cola, hechos)
    && Predecesores(enlaces, origen, dist, prev, hechos, orden)
  }

  /** The state between two pops: every link out of a settled router is relaxed. */
  ghost predicate Invariante(
    enlaces: Enlaces, nombres: set<string>, origen: string,
    dist: map<string, int>, prev: map<string, string>, cola: set<Orden.Entrada>,
    hechos: set<string>, orden: map<string, nat>, cuenta: nat)
  {
    && Estado(enlaces, nombres, origen, dist, prev, cola, hechos, orden, cuenta)
    && (forall e :: e in enlaces && e.0 in hechos ==> Relajado(enlaces, dist, e))
  }

  /**
   * The state while the links of the router `u` just settled at distance
   * `d` are scanned: the links not yet scanned (`pendientes`) out of `u` may
   * still lower a distance, and nothing settled is farther than `d`.
   */
  ghost predicate Relajando(
    enlaces: Enlaces, nombres: set<string>, origen: string,
    dist: map<string, int>, prev: map<string, string>, cola: set<Orden.Entrada>,
    hechos: set<string>, orden: map<string, nat>, cuenta: nat,
    u: string, d: int, pendientes: set<(string, string)>)
  {
    && Estado(enlaces, nombres, origen, dist, prev, cola, hechos, orden, cuenta)
    && u in hechos && u in dist && dist[u] == d
    && (forall y :: y in hechos ==> dist[y] <= d)
    && (forall e :: e in enlaces && e.0 in hechos && (e.0 != u || e !in pendientes) ==> Relajado(enlaces, dist, e))
  }

  /** Popping an outdated entry (its distance above the router's) keeps the invariant. */
  lemma DescartarObsoleta(
    enlaces: Enlaces, nombres: set<string>, origen: string,
    dist: map<string, int>, prev: map<string, string>, cola: set<Orden.Entrada>,
    hechos: set<string>, orden: map<string, nat>, cuenta: nat, top: Orden.Entrada)
    requires Invariante(enlaces, nombres, origen, dist, prev, cola, hechos, orden, cuenta)
    requires top in cola && top.1 in dist && top.0 > dist[top.1]
    ensures Invariante(enlaces, nombres, origen, dist, prev, cola - {top}, hechos, orden, cuenta)
  {
  }

  /**
   * Popping the least entry when it is current settles its router: the
   * router was not settled before, and no settled router is farther.
   */
  lemma Asentar(
    enlaces: Enlaces, nombres: set<string>, origen: string,
    dist: map<string, int>, prev: map<string, string>, cola: set<Orden.Entrada>,
    hechos: set<string>, orden: map<string, nat>, cuenta: nat, top: Orden.Entrada)
    requires Invariante(enlaces, nombres, origen, dist, prev, cola, hechos, orden, cuenta)
    requires Orden.EsMinimo(top, cola) && top.1 in dist && top.0 <= dist[top.1]
    ensures top.1 !in hechos && top.1 in nombres
    ensures Relajando(enlaces, nombres, origen, dist, prev, cola - {top}, hechos + {top.1}, orden[top.1 := cuenta],
                      cuenta + 1, top.1, top.0, enlaces.Keys)
  {
    AsentarFrontera(dist, cola, hechos, top);
    AsentarAsentados(dist, hechos, orden, cuenta, top.1);
    AsentarPredecesores(enlaces, origen, dist, prev, hechos, orden, cuenta, top.1);
  }

  /**
   * The least entry, when current, belongs to an unsettled router whose
   * distance it is, and no settled router is farther.
   */
  lemma AsentarFrontera(dist: map<string, int>, cola: set<Orden.Entrada>, hechos: set<string>, top: Orden.Entrada)
    requires Frontera(dist, cola, hechos)
    requires Orden.EsMinimo(top, cola) && top.1 in dist && top.0 <= dist[top.1]
    ensures top.1 !in hechos && dist[top.1] == top.0
    ensures forall y :: y in hechos + {top.1} ==> dist[y] <= top.0
    ensures Frontera(dist, cola - {top}, hechos + {top.1})
  {
    var u, d := top.1, top.0;
    var cola', hechos' := cola - {top}, hechos + {u};
    forall q | q in cola' ensures d <= q.0 {
      assert q == top || Orden.MenorPar(top, q);
    }
    forall q | q in cola' ensures q.1 in hechos' ==> q.0 > dist[q.1] {
      if q.1 == u {
        assert q.0 != d;
      }
    }
    forall v | v in dist && v !in hechos' ensures (dist[v], v) in cola' {
      assert (dist[v], v) in cola;
    }
    forall y, q | y in hechos' && q in cola' ensures y in dist && dist[y] <= q.0 {
      if y != u {
        assert q in cola;
      }
    }
    forall y | y in hechos' ensures dist[y] <= d {
      if y != u {
        assert top in cola;
      }
    }
  }

  /** Settling `u` numbers it after every router settled before. */
  lemma AsentarAsentados(dist: map<string, int>, hechos: set<string>, orden: map<string, nat>, cuenta: nat, u: string)
    requires Asentados(dist, hechos, orden, cuenta) && u in dist
    ensures Asentados(dist, hechos + {u}, orden[u := cuenta], cuenta + 1)
  {
  }

  /** Settling a router that was not settled keeps every recorded predecessor settled before its router. */
  lemma AsentarPredecesores(
    enlaces: Enlaces, origen: string, dist: map<string, int>, prev: map<string, string>,
    hechos: set<string>, orden: map<string, nat>, cuenta: nat, u: string)
    requires Predecesores(enlaces, origen, dist, prev, hechos, orden)
    requires Asentados(dist, hechos, orden, cuenta) && u !in hechos
    ensures Predecesores(enlaces, origen, dist, prev, hechos + {u}, orden[u := cuenta])
  {
    var orden' := orden[u := cuenta];
    forall v | v in prev
      ensures prev[v] in hechos + {u} && prev[v] in orden' && (v in orden' ==> orden'[prev[v]] < orden'[v])
    {
      assert prev[v] in hechos;
      assert prev[v] != u;
    }
  }

  /**
   * Scanning one link out of `u` that lowers its target's distance to
   * `alternativa`: record it, make `u` the target's predecessor and push it.
   */
  lemma Relajar(
    enlaces: Enlaces, nombres: set<string>, origen: string,
    dist: map<string, int>, prev: map<string, string>, cola: set<Orden.Entrada>,
    hechos: set<string>, orden: map<string, nat>, cuenta: nat,
    u: string, d: int, pendientes: set<(string, string)>, e: (string, string), alternativa: int)
    requires NoNegativos(enlaces) && forall e :: e in enlaces ==> e.0 in nombres && e.1 in nombres
    requires Relajando(enlaces, nombres, origen, dist, prev, cola, hechos, orden, cuenta, u, d, pendientes)
    requires e in pendientes && e in enlaces && e.0 == u && alternativa == dist[u] + enlaces[e]
    requires e.1 !in dist || alternativa < dist[e.1]
    ensures Relajando(enlaces, nombres, origen, dist[e.1 := alternativa], prev[e.1 := u],
                      cola + {(alternativa, e.1)}, hechos, orden, cuenta, u, d, pendientes - {e})
  {
    assert alternativa >= d >= 0 by {
      assert enlaces[e] >= 0;
    }
    assert e.1 !in hechos;
    assert e.1 != origen;
    RelajarDistancias(nombres, origen, dist, e.1, alternativa);
    RelajarAsentados(dist, hechos, orden, cuenta, e.1, alternativa);
    RelajarFrontera(dist, cola, hechos, d, e.1, alternativa);
    RelajarPredecesores(enlaces, origen, dist, prev, hechos, orden, e, alternativa);
    RelajarRelajados(enlaces, dist, hechos, u, d, pendientes, e, alternativa);
  }

  /** Giving an unreached router or lowering a router's distance to a non-negative value keeps the distances' shape. */
  lemma RelajarDistancias(nombres: set<string>, origen: string, dist: map<string, int>, v: string, alternativa: int)
    requires Distancias(nombres, origen, dist)
    requires v in nombres && v != origen && alternativa >= 0
    ensures Distancias(nombres, origen, dist[v := alternativa])
  {
  }

  /** Recording a distance leaves the settled routers and their numbering as they were. */
  lemma RelajarAsentados(
    dist: map<string, int>, hechos: set<string>, orden: map<string, nat>, cuenta: nat, v: string, alternativa: int)
    requires Asentados(dist, hechos, orden, cuenta)
    ensures Asentados(dist[v := alternativa], hechos, orden, cuenta)
  {
  }

  /**
   * Lowering the distance of the unsettled target of `e` leaves every link
   * relaxed that was relaxed, and `e` itself becomes relaxed.
   */
  lemma RelajarRelajados(
    enlaces: Enlaces, dist: map<string, int>, hechos: set<string>, u: string, d: int,
    pendientes: set<(string, string)>, e: (string, string), alternativa: int)
    requires hechos <= dist.Keys && u in hechos && dist[u] == d
    requires forall y :: y in hechos ==> dist[y] <= d
    requires forall e' :: e' in enlaces && e'.0 in hechos && (e'.0 != u || e' !in pendientes) ==> Relajado(enlaces, dist, e')
    requires e in enlaces && e.0 == u && e.1 !in hechos && alternativa == dist[u] + enlaces[e]
    requires e.1 !in dist || alternativa < dist[e.1]
    ensures forall y :: y in hechos ==> dist[e.1 := alternativa][y] <= d
    ensures forall e' :: e' in enlaces && e'.0 in hechos && (e'.0 != u || e' !in pendientes - {e}) ==>
              Relajado(enlaces, dist[e.1 := alternativa], e')
  {
    var dist' := dist[e.1 := alternativa];
    forall e' | e' in enlaces && e'.0 in hechos && (e'.0 != u || e' !in pendientes - {e})
      ensures Relajado(enlaces, dist', e')
    {
      assert e'.0 != e.1;
      if e' != e {
        assert Relajado(enlaces, dist, e');
      }
    }
    forall y | y in hechos ensures dist'[y] <= d {
      assert y != e.1;
    }
  }

  /** Lowering the distance of an unsettled router and pushing it keeps the frontier's shape. */
  lemma RelajarFrontera(
    dist: map<string, int>, cola: set<Orden.Entrada>, hechos: set<string>, d: int, v: string, alternativa: int)
    requires Frontera(dist, cola, hechos)
    requires v !in hechos && (v !in dist || alternativa < dist[v]) && alternativa >= d
    requires forall y :: y in hechos ==> y in dist && dist[y] <= d
    ensures Frontera(dist[v := alternativa], cola + {(alternativa, v)}, hechos)
  {
    var dist', cola' := dist[v := alternativa], cola + {(alternativa, v)};
    forall q | q in cola'
      ensures q.1 in dist' && q.0 >= dist'[q.1] && (q.1 in hechos ==> q.0 > dist'[q.1])
    {
      if q != (alternativa, v) {
        assert q in cola;
      }
    }
    forall w | w in dist' && w !in hechos ensures (dist'[w], w) in cola' {
      if w != v {
        assert (dist[w], w) in cola;
      }
    }
    forall y, q | y in hechos && q in cola' ensures y in dist' && dist'[y] <= q.0 {
      assert y != v;
      if q != (alternativa, v) {
        assert q in cola;
      }
    }
  }

  /** Making the settled origin of link `e` the predecessor of its unsettled target keeps the tree's shape. */
  lemma RelajarPredecesores(
    enlaces: Enlaces, origen: string, dist: map<string, int>, prev: map<string, string>,
    hechos: set<string>, orden: map<string, nat>, e: (string, string), alternativa: int)
    requires Predecesores(enlaces, origen, dist, prev, hechos, orden)
    requires hechos <= dist.Keys && orden.Keys == hechos
    requires e in enlaces && e.0 in hechos && e.1 !in hechos && e.1 != origen && alternativa == dist[e.0] + enlaces[e]
    ensures Predecesores(enlaces, origen, dist[e.1 := alternativa], prev[e.1 := e.0], hechos, orden)
  {
    var dist', prev' := dist[e.1 := alternativa], prev[e.1 := e.0];
    forall w | w in prev'
      ensures w in dist' && prev'[w] in dist' && prev'[w] in hechos && prev'[w] in orden && (prev'[w], w) in enlaces
      ensures dist'[w] == dist'[prev'[w]] + enlaces[(prev'[w], w)]
      ensures w in orden ==> orden[prev'[w]] < orden[w]
    {
      if w == e.1 {
        assert (prev'[w], w) == e;
      } else {
        assert prev[w] in hechos;
        assert prev[w] != e.1;
      }
    }
  }

  /** Scanning a link that lowers nothing changes no distance. */
  lemma Omitir(
    enlaces: Enlaces, nombres: set<string>, origen: string,
    dist: map<string, int>, prev: map<string, string>, cola: set<Orden.Entrada>,
    hechos: set<string>, orden: map<string, nat>, cuenta: nat,
    u: string, d: int, pendientes: set<(string, string)>, e: (string, string))
    requires Relajando(enlaces, nombres, origen, dist, prev, cola, hechos, orden, cuenta, u, d, pendientes)
    requires e in pendientes && e in enlaces
    requires e.0 == u ==> e.1 in dist && dist[u] + enlaces[e] >= dist[e.1]
    ensures Relajando(enlaces, nombres, origen, dist, prev, cola, hechos, orden, cuenta, u, d, pendientes - {e})
  {
  }

  /** With an empty frontier every reached router is settled and the distances are final. */
  lemma Terminar(
    enlaces: Enlaces, nombres: set<string>, origen: string,
    dist: map<string, int>, prev: map<string, string>,
    hechos: set<string>, orden: map<string, nat>, cuenta: nat)
    requires Invariante(enlaces, nombres, origen, dist, prev, {}, hechos, orden, cuenta)
    ensures forall v :: v in dist <==> Alcanzable(enlaces, origen, v)
    ensures forall v :: v in dist ==> CostoMinimo(enlaces, origen, v, dist[v])
    ensures ArbolDePredecesores(enlaces, origen, dist, prev, orden)
  {
    assert hechos == dist.Keys;
    assert Factible(enlaces, dist) by {
      forall e | e in enlaces && e.0 in dist ensures e.1 in dist && dist[e.1] <= dist[e.0] + enlaces[e] {
        assert Relajado(enlaces, dist, e);
      }
    }
    forall v ensures v in dist <==> Alcanzable(enlaces, origen, v) {
      if v in dist {
        var p := CadenaDePredecesores(enlaces, origen, dist, prev, orden, v);
      }
      if Alcanzable(enlaces, origen, v) {
        var p :| Entre(enlaces, p, origen, v);
        CotaFactible(enlaces, dist, p);
      }
    }
    forall v | v in dist ensures CostoMinimo(enlaces, origen, v, dist[v]) {
      var p := CadenaDePredecesores(enlaces, origen, dist, prev, orden, v);
      forall q | Entre(enlaces, q, origen, v) ensures dist[v] <= CostoDeCamino(enlaces, q) {
        CotaFactible(enlaces, dist, q);
      }
    }
  }

  /**
   * One scan over every link (`for (auto& [enlace, costo] : enlaces)`) after
   * popping router `u` at its current distance `d`: each link out of `u`
   * that lowers its target's distance records it, makes `u` the target's
   * predecessor and pushes the target. Afterwards every link out of `u` is
   * relaxed and the search invariant holds again.
   */
  method RelajarEnlaces(
    enlaces: Enlaces, ghost nombres: set<string>, ghost origen: string,
    dist0: map<string, int>, prev0: map<string, string>, cola0: set<Orden.Entrada>,
    ghost hechos: set<string>, ghost orden: map<string, nat>, ghost cuenta: nat,
    u: string, ghost d: int)
    returns (dist: map<string, int>, prev: map<string, string>, cola: set<Orden.Entrada>)
    requires NoNegativos(enlaces) && forall e :: e in enlaces ==> e.0 in nombres && e.1 in nombres
    requires Relajando(enlaces, nombres, origen, dist0, prev0, cola0, hechos, orden, cuenta, u, d, enlaces.Keys)
    ensures Invariante(enlaces, nombres, origen, dist, prev, cola, hechos, orden, cuenta)
  {
    dist, prev, cola := dist0, prev0, cola0;
    var pendientes := enlaces.Keys;
    while pendientes != {}
      invariant pendientes <= enlaces.Keys
      invariant Relajando(enlaces, nombres, origen, dist, prev, cola, hechos, orden, cuenta, u, d, pendientes)
      decreases pendientes
    {
      var e :| e in pendientes;
      if e.0 == u && (e.1 !in dist || dist[u] + enlaces[e] < dist[e.1]) {
        var alternativa := dist[u] + enlaces[e];
        Relajar(enlaces, nombres, origen, dist, prev, cola, hechos, orden, cuenta, u, d, pendientes, e, alternativa);
        dist := dist[e.1 := alternativa];
        prev := prev[e.1 := u];
        cola := cola + {(alternativa, e.1)};
      } else {
        Omitir(enlaces, nombres, origen, dist, prev, cola, hechos, orden, cuenta, u, d, pendientes, e);
      }
      pendientes := pendientes - {e};
    }
  }

  /**
   * The Dijkstra loop (`distancias`, `anteriores`, `colaDePrioridad`). The
   * result holds exactly the routers reachable from `origen`, each with its
   * shortest cost, and the predecessor map forms a shortest-path tree.
   */
  method CaminosMinimos(enlaces: Enlaces, ghost nombres: set<string>, origen: string)
    returns (dist: map<string, int>, prev: map<string, string>, ghost orden: map<string, nat>)
    requires origen in nombres
    requires forall e :: e in enlaces ==> e.0 in nombres && e.1 in nombres
    requires NoNegativos(enlaces)
    ensures dist.Keys <= nombres
    ensures forall v :: v in dist ==> dist[v] >= 0
    ensures forall v :: v in dist <==> Alcanzable(enlaces, origen, v)
    ensures forall v :: v in dist ==> CostoMinimo(enlaces, origen, v, dist[v])
    ensures ArbolDePredecesores(enlaces, origen, dist, prev, orden)
  {
    dist := map[origen := 0];
    prev := map[];
    orden := map[];
    ghost var hechos: set<string> := {};
    ghost var cuenta: nat := 0;
    var cola: set<Orden.Entrada> := {(0, origen)};
    while cola != {}
      invariant Invariante(enlaces, nombres, origen, dist, prev, cola, hechos, orden, cuenta)
      decreases nombres - hechos, |cola|
    {
      Orden.MinimoExiste(cola);
      var top :| Orden.EsMinimo(top, cola);
      if top.0 > dist[top.1] {
        DescartarObsoleta(enlaces, nombres, origen, dist, prev, cola, hechos, orden, cuenta, top);
        cola := cola - {top};
      } else {
        Asentar(enlaces, nombres, origen, dist, prev, cola, hechos, orden, cuenta, top);
        cola := cola - {top};
        hechos := hechos + {top.1};
        orden := orden[top.1 := cuenta];
        cuenta := cuenta + 1;
        dist, prev, cola := RelajarEnlaces(enlaces, nombres, origen, dist, prev, cola, hechos, orden, cuenta, top.1, top.0);
      }
    }
    Terminar(enlaces, nombres, origen, dist, prev, hechos, orden, cuenta);
  }

  /**
   * The walk back along predecessors (`siguiente = anteriores[siguiente]`)
   * until the router whose predecessor is the origin: the first hop on the
   * recorded shortest path. A router named "" would read as "no predecessor"
   * and stop the walk early, so the first-hop guarantee needs no reached
   * router other than the origin to be named "".
   */
  method SiguienteSalto(
    ghost enlaces: Enlaces, ghost dist: map<string, int>, prev: map<string, string>, ghost orden: map<string, nat>,
    origen: string, destino: string)
    returns (salto: string)
    requires ArbolDePredecesores(enlaces, origen, dist, prev, orden) && destino in dist
    ensures destino == origen ==> salto == origen
    ensures destino in prev && prev[destino] == origen ==> salto == destino
    ensures destino != origen && ("" == origen || "" !in dist) ==>
              && salto in prev && prev[salto] == origen && (origen, salto) in enlaces
              && exists p :: Entre(enlaces, p, origen, destino) && p[1] == salto && CostoDeCamino(enlaces, p) == dist[destino]
  {
    salto := destino;
    ghost var sufijo := [destino];
    while Anterior(prev, salto) != origen && Anterior(prev, salto) != ""
      invariant salto in dist
      invariant destino == origen ==> salto == origen
      invariant destino in prev && prev[destino] == origen ==> salto == destino
      invariant destino != origen ==> salto != origen
      invariant Entre(enlaces, sufijo, salto, destino)
      invariant CostoDeCamino(enlaces, sufijo) == dist[destino] - dist[salto]
      decreases orden[salto]
    {
      var anterior := prev[salto];
      EnlaceMasCamino(enlaces, anterior, sufijo);
      sufijo := [anterior] + sufijo;
      salto := anterior;
    }
    if destino != origen && ("" == origen || "" !in dist) {
      assert salto in prev;
      EnlaceMasCamino(enlaces, origen, sufijo);
      var p := [origen] + sufijo;
      assert Entre(enlaces, p, origen, destino) && p[1] == salto;
    }
  }
}
