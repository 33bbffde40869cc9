/**
 * The network (`class Red`): routers kept by name, directed link costs kept
 * in both directions, and the operations that edit them, recompute the
 * routing tables and answer cost and path queries.
 */
module Redes {
  import opened Grafo
  import opened Enrutadores
  import Busqueda

  /**
   * What a path query yields. `Termina(ruta)` is the vector the query
   * returns; `Cicla(ruta)` stands for a query that never returns because
   * the hop after `ruta` is a router already in `ruta`, so the walk goes
   * round the same routers forever.
   */
  datatype Camino = Termina(ruta: seq<string>) | Cicla(ruta: seq<string>)

  /** Links after `agregarEnlace(r1, r2, costo)`: both directions carry `costo`. */
  function ConEnlace(enlaces: Enlaces, r1: string, r2: string, costo: int): Enlaces {
    enlaces[(r1, r2) := costo][(r2, r1) := costo]
  }

  /** Both directions carry `costo`, no other link changes, and symmetry is kept. */
  lemma ConEnlaceValido(enlaces: Enlaces, r1: string, r2: string, costo: int)
    ensures var r := ConEnlace(enlaces, r1, r2, costo);
      && (r1, r2) in r && r[(r1, r2)] == costo && (r2, r1) in r && r[(r2, r1)] == costo
      && (forall e :: e != (r1, r2) && e != (r2, r1) ==> (e in r <==> e in enlaces))
      && (forall e :: e in r && e != (r1, r2) && e != (r2, r1) ==> r[e] == enlaces[e])
      && (Simetricos(enlaces) ==> Simetricos(r))
  {
  }

  /** Links after `removerEnlace(r1, r2)`: neither direction is left. */
  function SinEnlace(enlaces: Enlaces, r1: string, r2: string): (r: Enlaces)
    ensures (r1, r2) !in r && (r2, r1) !in r
    ensures forall e :: e != (r1, r2) && e != (r2, r1) ==> (e in r <==> e in enlaces)
    ensures forall e :: e in r ==> r[e] == enlaces[e]
    ensures Simetricos(enlaces) ==> Simetricos(r)
  {
    enlaces - {(r1, r2)} - {(r2, r1)}
  }

  /** Links after removing router `n`: exactly those with `n` as an endpoint are gone. */
  function SinEnrutador(enlaces: Enlaces, n: string): (r: Enlaces)
    ensures forall e :: e in r <==> e in enlaces && e.0 != n && e.1 != n
    ensures forall e :: e in r ==> r[e] == enlaces[e]
    ensures Simetricos(enlaces) ==> Simetricos(r)
  {
    map e | e in enlaces && e.0 != n && e.1 != n :: enlaces[e]
  }

  /** Every router named in a sequence of topology lines. */
  function Nombres(lineas: seq<(string, string, int)>): set<string>
    decreases |lineas|
  {
    if |lineas| == 0 then {}
    else
      var ultima := lineas[|lineas| - 1];
      Nombres(lineas[..|lineas| - 1]) + {ultima.0, ultima.1}
  }

  /** The links after adding the link of every topology line in order, a later line overriding an earlier one. */
  function ConEnlaces(enlaces: Enlaces, lineas: seq<(string, string, int)>): Enlaces
    decreases |lineas|
  {
    if |lineas| == 0 then enlaces
    else
      var ultima := lineas[|lineas| - 1];
      ConEnlace(ConEnlaces(enlaces, lineas[..|lineas| - 1]), ultima.0, ultima.1, ultima.2)
  }

  /** Loading the first `i + 1` lines is loading the first `i` and then line `i`. */
  lemma CargaDeLinea(
    enrutadores: map<string, Enrutador>, enlaces: Enlaces, lineas: seq<(string, string, int)>, i: nat)
    requires i < |lineas|
    ensures Cargados(enrutadores, lineas[..i + 1]) ==
              ConEnrutador(ConEnrutador(Cargados(enrutadores, lineas[..i]), lineas[i].0), lineas[i].1)
    ensures ConEnlaces(enlaces, lineas[..i + 1]) ==
              ConEnlace(ConEnlaces(enlaces, lineas[..i]), lineas[i].0, lineas[i].1, lineas[i].2)
    ensures Nombres(lineas[..i + 1]) == Nombres(lineas[..i]) + {lineas[i].0, lineas[i].1}
  {
    assert lineas[..i + 1][..i] == lineas[..i];
  }

  /**
   * Loading lines keeps links symmetric and non-negative, joins only known
   * or named routers, and leaves a link for every line in both directions.
   */
  lemma {:induction false} ConEnlacesValidos(enlaces: Enlaces, lineas: seq<(string, string, int)>)
    ensures forall i :: 0 <= i < |lineas| ==> (lineas[i].0, lineas[i].1) in ConEnlaces(enlaces, lineas)
    ensures forall e :: e in ConEnlaces(enlaces, lineas) ==> e in enlaces || (e.0 in Nombres(lineas) && e.1 in Nombres(lineas))
    ensures Simetricos(enlaces) ==> Simetricos(ConEnlaces(enlaces, lineas))
    ensures NoNegativos(enlaces) && (forall i :: 0 <= i < |lineas| ==> lineas[i].2 >= 0) ==>
              NoNegativos(ConEnlaces(enlaces, lineas))
    decreases |lineas|
  {
    if |lineas| > 0 {
      var previas := lineas[..|lineas| - 1];
      assert forall i :: 0 <= i < |previas| ==> previas[i] == lineas[i];
      ConEnlacesValidos(enlaces, previas);
      var ultima := lineas[|lineas| - 1];
      ConEnlaceValido(ConEnlaces(enlaces, previas), ultima.0, ultima.1, ultima.2);
    }
  }

  /** Routers after `agregarEnrutador(nombre)`: a router for `nombre`, the one already there if any. */
  function ConEnrutador(enrutadores: map<string, Enrutador>, nombre: string): map<string, Enrutador> {
    if nombre in enrutadores then enrutadores else enrutadores[nombre := Nuevo(nombre)]
  }

  /** After `agregarEnrutador` the name has a router, and every router is the one before or a fresh one. */
  lemma ConEnrutadorPrevio(enrutadores: map<string, Enrutador>, nombre: string)
    ensures ConEnrutador(enrutadores, nombre).Keys == enrutadores.Keys + {nombre}
    ensures forall k :: k in ConEnrutador(enrutadores, nombre) ==> ConEnrutador(enrutadores, nombre)[k] == Previo(enrutadores, k)
  {
  }

  /** The routers after adding both routers of every topology line in order. */
  function Cargados(enrutadores: map<string, Enrutador>, lineas: seq<(string, string, int)>): map<string, Enrutador>
    decreases |lineas|
  {
    if |lineas| == 0 then enrutadores
    else
      var ultima := lineas[|lineas| - 1];
      ConEnrutador(ConEnrutador(Cargados(enrutadores, lineas[..|lineas| - 1]), ultima.0), ultima.1)
  }

  /**
   * Loading lines adds exactly the routers they name, each new one with
   * empty tables, and leaves every router already there as it was.
   */
  lemma {:induction false} CargadosPrevios(enrutadores: map<string, Enrutador>, lineas: seq<(string, string, int)>)
    ensures Cargados(enrutadores, lineas).Keys == enrutadores.Keys + Nombres(lineas)
    ensures forall k :: k in Cargados(enrutadores, lineas) ==> Cargados(enrutadores, lineas)[k] == Previo(enrutadores, k)
    decreases |lineas|
  {
    if |lineas| > 0 {
      var previas := lineas[..|lineas| - 1];
      var ultima := lineas[|lineas| - 1];
      CargadosPrevios(enrutadores, previas);
      ConEnrutadorPrevio(Cargados(enrutadores, previas), ultima.0);
      ConEnrutadorPrevio(ConEnrutador(Cargados(enrutadores, previas), ultima.0), ultima.1);
    }
  }

  /**
   * The next hop `salto` stored at router `o` for destination `d` at cost
   * `costo`: `o` itself for `o`, otherwise a neighbour of `o` that starts
   * a path to `d` of that cost. The second half is promised only when no
   * router other than `o` is named "" (see `Busqueda.SiguienteSalto`).
   */
  ghost predicate SaltoCorrecto(enlaces: Enlaces, nombres: set<string>, o: string, d: string, costo: int, salto: string) {
    && (d == o ==> salto == o)
    && (d != o && (o == "" || "" !in nombres) ==>
          && (o, salto) in enlaces
          && exists p :: Entre(enlaces, p, o, d) && p[1] == salto && CostoDeCamino(enlaces, p) == costo)
  }

  /** A correct first hop is a neighbour from which the destination is reachable. */
  lemma SaltoAlcanza(enlaces: Enlaces, nombres: set<string>, o: string, d: string, costo: int, salto: string)
    requires d != o && (o == "" || "" !in nombres)
    requires SaltoCorrecto(enlaces, nombres, o, d, costo, salto)
    ensures (o, salto) in enlaces && Alcanzable(enlaces, salto, d)
  {
    var p :| Entre(enlaces, p, o, d) && p[1] == salto && CostoDeCamino(enlaces, p) == costo;
    var q := p[1..];
    assert Entre(enlaces, q, salto, d) by {
      forall i | 0 <= i < |q| - 1 ensures (q[i], q[i + 1]) in enlaces {
        assert q[i] == p[i + 1] && q[i + 1] == p[i + 2];
      }
    }
  }

  /**
   * On shortest costs, the cost through a correct first hop is the link's
   * cost plus the shortest cost from the hop.
   */
  lemma CostoPorSalto(enlaces: Enlaces, nombres: set<string>, o: string, d: string, costo: int, salto: string, resto: int)
    requires d != o && (o == "" || "" !in nombres)
    requires SaltoCorrecto(enlaces, nombres, o, d, costo, salto)
    requires CostoMinimo(enlaces, o, d, costo) && CostoMinimo(enlaces, salto, d, resto)
    ensures costo == enlaces[(o, salto)] + resto
  {
    var p :| Entre(enlaces, p, o, d) && p[1] == salto && CostoDeCamino(enlaces, p) == costo;
    var q := p[1..];
    assert EsCamino(enlaces, q) by {
      forall i | 0 <= i < |q| - 1 ensures (q[i], q[i + 1]) in enlaces {
        assert q[i] == p[i + 1] && q[i + 1] == p[i + 2];
      }
    }
    assert [o] + q == p;
    EnlaceMasCamino(enlaces, o, q);
    assert Entre(enlaces, q, salto, d);
    var q' :| Entre(enlaces, q', salto, d) && CostoDeCamino(enlaces, q') == resto;
    EnlaceMasCamino(enlaces, o, q');
    assert Entre(enlaces, [o] + q', o, d);
  }

  /** Router `r`, at `o`, has the shortest cost and a correct next hop for every destination reachable from `o`. */
  ghost predicate TablaAlDia(enlaces: Enlaces, nombres: set<string>, o: string, r: Enrutador) {
    forall d :: Alcanzable(enlaces, o, d) ==>
      && d in r.tablaEnrutamiento && d in r.siguienteSalto
      && CostoMinimo(enlaces, o, d, r.tablaEnrutamiento[d])
      && SaltoCorrecto(enlaces, nombres, o, d, r.tablaEnrutamiento[d], r.siguienteSalto[d])
  }

  /** The router to compare with after a load: the one there before, or a fresh one. */
  function Previo(enrutadores: map<string, Enrutador>, k: string): Enrutador {
    if k in enrutadores then enrutadores[k] else Nuevo(k)
  }

  /**
   * The last loop of `ejecutarBusqueda`: for every destination the search
   * reached, walk back to its first hop and record cost and hop in the
   * origin's router `r0`. Destinations not reached keep their entries.
   */
  method EscribirTabla(
    ghost enlaces: Enlaces, ghost nombres: set<string>, origen: string,
    dist: map<string, int>, prev: map<string, string>, ghost orden: map<string, nat>, r0: Enrutador)
    returns (r: Enrutador)
    requires Busqueda.ArbolDePredecesores(enlaces, origen, dist, prev, orden)
    requires dist.Keys <= nombres
    ensures r.nombre == r0.nombre
    ensures forall x :: x in dist ==>
              && x in r.tablaEnrutamiento && r.tablaEnrutamiento[x] == dist[x] && x in r.siguienteSalto
              && SaltoCorrecto(enlaces, nombres, origen, x, dist[x], r.siguienteSalto[x])
    ensures forall x :: x !in dist ==> r.MismaRuta(r0, x)
  {
    r := r0;
    var pendientes := dist.Keys;
    while pendientes != {}
      invariant pendientes <= dist.Keys
      invariant r.nombre == r0.nombre
      invariant forall x :: x in dist && x !in pendientes ==>
                  && x in r.tablaEnrutamiento && r.tablaEnrutamiento[x] == dist[x] && x in r.siguienteSalto
                  && SaltoCorrecto(enlaces, nombres, origen, x, dist[x], r.siguienteSalto[x])
      invariant forall x :: x !in dist || x in pendientes ==> r.MismaRuta(r0, x)
      decreases pendientes
    {
      var destino :| destino in pendientes;
      var salto := Busqueda.SiguienteSalto(enlaces, dist, prev, orden, origen, destino);
      assert SaltoCorrecto(enlaces, nombres, origen, destino, dist[destino], salto);
      ghost var anterior := r;
      r := r.ActualizarTablaDeEnrutamiento(destino, dist[destino], salto);
      pendientes := pendientes - {destino};
      forall x | x != destino ensures r.MismaRuta(anterior, x) && (x !in dist || x in pendientes ==> r.MismaRuta(r0, x)) {
        if x !in dist || x in pendientes {
          assert anterior.MismaRuta(r0, x);
        }
      }
      forall x | x in dist && x !in pendientes
        ensures && x in r.tablaEnrutamiento && r.tablaEnrutamiento[x] == dist[x] && x in r.siguienteSalto
                && SaltoCorrecto(enlaces, nombres, origen, x, dist[x], r.siguienteSalto[x])
      {
        if x != destino {
          assert r.siguienteSalto[x] == anterior.siguienteSalto[x];
        }
      }
    }
  }

  class Red {
    var enrutadores: map<string, Enrutador>
    var enlaces: Enlaces

    /**
     * Each router is stored under its own name, every link joins two
     * routers, costs are non-negative, links come in equal-cost pairs and
     * no table holds a negative cost.
     */
    ghost predicate Valid()
      reads this
    {
      && (forall k :: k in enrutadores ==> enrutadores[k].nombre == k)
      && (forall e :: e in enlaces ==> e.0 in enrutadores && e.1 in enrutadores)
      && NoNegativos(enlaces)
      && Simetricos(enlaces)
      && (forall k, x :: k in enrutadores && x in enrutadores[k].tablaEnrutamiento ==>
            enrutadores[k].tablaEnrutamiento[x] >= 0)
    }

    /** Every router's tables reflect the current links. */
    ghost predicate TablasAlDia()
      reads this
    {
      forall o :: o in enrutadores ==> TablaAlDia(enlaces, enrutadores.Keys, o, enrutadores[o])
    }

    constructor()
      ensures Valid() && TablasAlDia()
      ensures enrutadores == map[] && enlaces == map[]
    {
      enrutadores := map[];
      enlaces := map[];
    }

    /** `agregarEnrutador`: a new name gets a router with empty tables; a known name changes nothing. */
    method AgregarEnrutador(nombre: string) returns (agregado: bool)
      requires Valid()
      modifies this
      ensures Valid()
      ensures agregado <==> nombre !in old(enrutadores)
      ensures enrutadores == ConEnrutador(old(enrutadores), nombre)
      ensures enlaces == old(enlaces)
    {
      if nombre !in enrutadores {
        enrutadores := enrutadores[nombre := Nuevo(nombre)];
        agregado := true;
      } else {
        agregado := false;
      }
    }

    /**
     * `removerEnrutador`: a known router goes, and so does every link it
     * is an endpoint of, erased one by one in a scan of the links; an
     * unknown name changes nothing.
     */
    method RemoverEnrutador(nombre: string) returns (removido: bool)
      requires Valid()
      modifies this
      ensures Valid()
      ensures removido <==> nombre in old(enrutadores)
      ensures removido ==> enrutadores == old(enrutadores) - {nombre} && enlaces == SinEnrutador(old(enlaces), nombre)
      ensures !removido ==> enrutadores == old(enrutadores) && enlaces == old(enlaces)
    {
      if nombre in enrutadores {
        var claves := enlaces.Keys;
        while claves != {}
          invariant claves <= old(enlaces).Keys
          invariant forall e :: e in enlaces <==> e in old(enlaces) && (e in claves || (e.0 != nombre && e.1 != nombre))
          invariant forall e :: e in enlaces ==> enlaces[e] == old(enlaces)[e]
          invariant enrutadores == old(enrutadores)
          decreases claves
        {
          var e :| e in claves;
          if e.0 == nombre || e.1 == nombre {
            enlaces := enlaces - {e};
          }
          claves := claves - {e};
        }
        assert enlaces.Keys == SinEnrutador(old(enlaces), nombre).Keys;
        assert enlaces == SinEnrutador(old(enlaces), nombre);
        assert forall e :: e in enlaces ==> e.0 in enrutadores - {nombre} && e.1 in enrutadores - {nombre};
        enrutadores := enrutadores - {nombre};
        removido := true;
      } else {
        removido := false;
      }
    }

    /**
     * `agregarEnlace`: sets the cost of both directions, whatever they held
     * before. Any names and any cost are accepted; the network stays valid
     * when both routers exist and the cost is not negative.
     */
    method AgregarEnlace(r1: string, r2: string, costo: int)
      requires Valid()
      modifies this
      ensures r1 in enrutadores && r2 in enrutadores && costo >= 0 ==> Valid()
      ensures enlaces == ConEnlace(old(enlaces), r1, r2, costo)
      ensures enrutadores == old(enrutadores)
    {
      ConEnlaceValido(enlaces, r1, r2, costo);
      enlaces := enlaces[(r1, r2) := costo];
      enlaces := enlaces[(r2, r1) := costo];
    }

    /** `removerEnlace`: erases both directions, present or not. */
    method RemoverEnlace(r1: string, r2: string)
      requires Valid()
      modifies this
      ensures Valid()
      ensures enlaces == SinEnlace(old(enlaces), r1, r2)
      ensures enrutadores == old(enrutadores)
    {
      enlaces := enlaces - {(r1, r2)};
      enlaces := enlaces - {(r2, r1)};
    }

    /**
     * `ejecutarBusqueda(origen)`: runs the search from `origen` and writes,
     * for every reached destination, its cost and first hop into the
     * origin's tables. Destinations not reached keep whatever entries they
     * had; no other router changes.
     */
    method EjecutarBusqueda(origen: string)
      requires Valid() && origen in enrutadores
      modifies this
      ensures Valid()
      ensures enlaces == old(enlaces) && enrutadores.Keys == old(enrutadores).Keys
      ensures forall k :: k in enrutadores && k != origen ==> enrutadores[k] == old(enrutadores)[k]
      ensures TablaAlDia(enlaces, enrutadores.Keys, origen, enrutadores[origen])
      ensures forall x :: !Alcanzable(enlaces, origen, x) ==> enrutadores[origen].MismaRuta(old(enrutadores)[origen], x)
    {
      var dist, prev, orden := Busqueda.CaminosMinimos(enlaces, enrutadores.Keys, origen);
      var r := EscribirTabla(enlaces, enrutadores.Keys, origen, dist, prev, orden, enrutadores[origen]);
      forall x | x in r.tablaEnrutamiento ensures r.tablaEnrutamiento[x] >= 0 {
        if x !in dist {
          assert r.MismaRuta(enrutadores[origen], x);
        }
      }
      enrutadores := enrutadores[origen := r];
    }

    /** `actualizarTablasDeEnrutamiento`: the search from every router in turn. */
    method ActualizarTablasDeEnrutamiento()
      requires Valid()
      modifies this
      ensures Valid() && TablasAlDia()
      ensures enlaces == old(enlaces) && enrutadores.Keys == old(enrutadores).Keys
      ensures forall k :: k in enrutadores ==> enrutadores[k].nombre == old(enrutadores)[k].nombre
      ensures forall k, x :: k in enrutadores && !Alcanzable(enlaces, k, x) ==>
                enrutadores[k].MismaRuta(old(enrutadores)[k], x)
    {
      var nombres := enrutadores.Keys;
      while nombres != {}
        invariant Valid()
        invariant enlaces == old(enlaces) && enrutadores.Keys == old(enrutadores).Keys && nombres <= enrutadores.Keys
        invariant forall k :: k in enrutadores ==> enrutadores[k].nombre == old(enrutadores)[k].nombre
        invariant forall k :: k in enrutadores && k !in nombres ==> TablaAlDia(enlaces, enrutadores.Keys, k, enrutadores[k])
        invariant forall k, x :: k in enrutadores && !Alcanzable(enlaces, k, x) ==>
                    enrutadores[k].MismaRuta(old(enrutadores)[k], x)
        decreases nombres
      {
        var n :| n in nombres;
        ghost var antes := enrutadores;
        EjecutarBusqueda(n);
        nombres := nombres - {n};
        forall k | k in enrutadores && k !in nombres ensures TablaAlDia(enlaces, enrutadores.Keys, k, enrutadores[k]) {
          if k != n {
            assert enrutadores[k] == antes[k];
          }
        }
        forall k, x | k in enrutadores && !Alcanzable(enlaces, k, x) ensures enrutadores[k].MismaRuta(old(enrutadores)[k], x) {
          if k != n {
            assert enrutadores[k] == antes[k];
          } else {
            assert enrutadores[k].MismaRuta(antes[k], x);
          }
        }
      }
    }

    /**
     * `cargarTopologia`, over the lines already read: each line adds both
     * routers (when new) and the link, then every table is recomputed.
     */
    method CargarTopologia(lineas: seq<(string, string, int)>)
      requires Valid()
      requires forall i :: 0 <= i < |lineas| ==> lineas[i].2 >= 0
      modifies this
      ensures Valid() && TablasAlDia()
      ensures enrutadores.Keys == old(enrutadores).Keys + Nombres(lineas)
      ensures enlaces == ConEnlaces(old(enlaces), lineas)
      ensures forall k, x :: k in enrutadores && !Alcanzable(enlaces, k, x) ==>
                enrutadores[k].MismaRuta(Previo(old(enrutadores), k), x)
    {
      var i := 0;
      while i < |lineas|
        invariant 0 <= i <= |lineas| && Valid()
        invariant enrutadores == Cargados(old(enrutadores), lineas[..i])
        invariant enlaces == ConEnlaces(old(enlaces), lineas[..i])
      {
        CargaDeLinea(old(enrutadores), old(enlaces), lineas, i);
        AgregarLinea(lineas[i]);
        i := i + 1;
      }
      assert lineas[..i] == lineas;
      CargadosPrevios(old(enrutadores), lineas);
      ActualizarTablasDeEnrutamiento();
    }

    /** One line of the topology: both routers, when new, then the link. */
    method AgregarLinea(linea: (string, string, int))
      requires Valid() && linea.2 >= 0
      modifies this
      ensures Valid()
      ensures enrutadores == ConEnrutador(ConEnrutador(old(enrutadores), linea.0), linea.1)
      ensures enlaces == ConEnlace(old(enlaces), linea.0, linea.1, linea.2)
    {
      var agregado1 := AgregarEnrutador(linea.0);
      var agregado2 := AgregarEnrutador(linea.1);
      AgregarEnlace(linea.0, linea.1, linea.2);
    }

    /** `obtenerCosto`: the cost in the origin's table, or -1 when there is none. */
    function ObtenerCosto(origen: string, destino: string): (costo: int)
      reads this
      ensures Valid() ==> (costo >= 0 <==> origen in enrutadores && destino in enrutadores[origen].tablaEnrutamiento)
      ensures Valid() ==> costo >= -1
      ensures Valid() && TablasAlDia() && origen in enrutadores && Alcanzable(enlaces, origen, destino) ==>
                CostoMinimo(enlaces, origen, destino, costo)
    {
      if origen in enrutadores && destino in enrutadores[origen].tablaEnrutamiento then
        enrutadores[origen].tablaEnrutamiento[destino]
      else
        -1
    }

    /**
     * `enrutadores[actual].siguienteSalto[destino]`, which reads "" when
     * either entry is missing; the read inserts nothing. On up-to-date
     * tables a router has an entry for every destination it can reach, and
     * its hop for itself is itself.
     */
    function Salto(actual: string, destino: string): (h: string)
      reads this
      ensures Valid() && TablasAlDia() && actual in enrutadores && Alcanzable(enlaces, actual, destino) ==>
                destino in enrutadores[actual].siguienteSalto && h == enrutadores[actual].siguienteSalto[destino]
                && (actual == destino ==> h == actual)
    {
      if actual in enrutadores && destino in enrutadores[actual].siguienteSalto then
        enrutadores[actual].siguienteSalto[destino]
      else
        ""
    }

    /** Where the walk from `o` towards `d` stands after visiting `w`. */
    function Siguiente(w: seq<string>, o: string, d: string): (actual: string)
      reads this
    {
      if |w| == 0 then o else Salto(w[|w| - 1], d)
    }

    /**
     * `w` is the sequence of routers the path query from `o` to `d` has
     * pushed so far: it starts at `o`, each router is the previous one's
     * next hop for `d`, and none of them is `d` or "".
     */
    ghost predicate Recorrido(w: seq<string>, o: string, d: string)
      reads this
    {
      && (|w| > 0 ==> w[0] == o)
      && (forall i :: 0 <= i < |w| ==> w[i] != d && w[i] != "")
      && (forall i :: 0 <= i < |w| - 1 ==> w[i + 1] == Salto(w[i], d))
    }

    /** A router's cost to itself is 0 and it forwards to itself. */
    lemma CostoAUnoMismo(o: string)
      requires Valid() && TablasAlDia() && o in enrutadores
      ensures ObtenerCosto(o, o) == 0 && Salto(o, o) == o
    {
      assert Entre(enlaces, [o], o, o);
      MinimoAUnoMismo(enlaces, o, ObtenerCosto(o, o));
    }

    /** Links are added and removed in pairs, so a cost reads the same both ways. */
    lemma CostoSimetrico(a: string, b: string)
      requires Valid() && TablasAlDia() && a in enrutadores && b in enrutadores && Alcanzable(enlaces, a, b)
      ensures ObtenerCosto(a, b) == ObtenerCosto(b, a)
    {
      var p :| Entre(enlaces, p, a, b);
      CaminoInvertido(enlaces, p);
      assert Entre(enlaces, Invertido(p), b, a);
      MinimoSimetrico(enlaces, a, b, ObtenerCosto(a, b));
      MinimoUnico(enlaces, b, a, ObtenerCosto(a, b), ObtenerCosto(b, a));
    }

    /**
     * One step of a path query on up-to-date tables: the next hop from `x`
     * towards `d` is a neighbour from which `d` is still reachable, and
     * `x`'s cost is that link's cost plus the neighbour's cost.
     */
    lemma PasoHaciaDestino(x: string, d: string)
      requires Valid() && TablasAlDia() && "" !in enrutadores
      requires x in enrutadores && x != d && Alcanzable(enlaces, x, d)
      ensures Salto(x, d) in enrutadores && (x, Salto(x, d)) in enlaces && Alcanzable(enlaces, Salto(x, d), d)
      ensures ObtenerCosto(x, d) == enlaces[(x, Salto(x, d))] + ObtenerCosto(Salto(x, d), d)
    {
      var c := enrutadores[x].tablaEnrutamiento[d];
      var s := enrutadores[x].siguienteSalto[d];
      assert CostoMinimo(enlaces, x, d, c) && SaltoCorrecto(enlaces, enrutadores.Keys, x, d, c, s);
      SaltoAlcanza(enlaces, enrutadores.Keys, x, d, c, s);
      assert TablaAlDia(enlaces, enrutadores.Keys, s, enrutadores[s]);
      CostoPorSalto(enlaces, enrutadores.Keys, x, d, c, s, enrutadores[s].tablaEnrutamiento[d]);
    }

    /**
     * The walk `w` from `o` is heading for `d`: the router it stands at is
     * a router from which `d` is reachable and cheaper to `d` than every
     * router already pushed, and `w` followed by it is a path from `o`
     * whose cost plus the remaining cost is `o`'s cost.
     */
    ghost predicate HaciaDestino(w: seq<string>, o: string, d: string)
      reads this
    {
      var s := Siguiente(w, o, d);
      && s in enrutadores && Alcanzable(enlaces, s, d)
      && (forall i :: 0 <= i < |w| ==> ObtenerCosto(s, d) < ObtenerCosto(w[i], d))
      && EsCamino(enlaces, w + [s]) && (w + [s])[0] == o
      && CostoDeCamino(enlaces, w + [s]) + ObtenerCosto(s, d) == ObtenerCosto(o, d)
    }

    /** With positive costs every step keeps the walk heading for `d`. */
    lemma Avanza(w: seq<string>, o: string, d: string)
      requires Valid() && TablasAlDia() && Positivos(enlaces) && "" !in enrutadores
      requires HaciaDestino(w, o, d) && Siguiente(w, o, d) != d
      ensures HaciaDestino(w + [Siguiente(w, o, d)], o, d)
    {
      var x := Siguiente(w, o, d);
      var w' := w + [x];
      PasoHaciaDestino(x, d);
      var s := Salto(x, d);
      assert Siguiente(w', o, d) == s;
      CaminoMasEnlace(enlaces, w', s);
      assert (w' + [s])[0] == (w + [x])[0];
    }

    /** A walk that has not stopped pushes the router it stands at. */
    lemma RecorridoSigue(w: seq<string>, o: string, d: string)
      requires Recorrido(w, o, d) && Siguiente(w, o, d) != d && Siguiente(w, o, d) != ""
      ensures Recorrido(w + [Siguiente(w, o, d)], o, d)
    {
      var w' := w + [Siguiente(w, o, d)];
      assert forall i :: 0 <= i < |w| ==> w'[i] == w[i];
    }

    /** When a path query is guaranteed to reach its destination. */
    ghost predicate Fiable(origen: string, destino: string)
      reads this
    {
      && Valid() && TablasAlDia() && Positivos(enlaces) && "" !in enrutadores
      && origen in enrutadores && Alcanzable(enlaces, origen, destino)
    }

    /**
     * Under those conditions every walk the path query makes is heading
     * for the destination: it never comes back to a router and it never
     * reaches a missing entry.
     */
    lemma {:induction false} RecorridoFiable(w: seq<string>, o: string, d: string)
      requires Fiable(o, d) && Recorrido(w, o, d)
      ensures HaciaDestino(w, o, d)
      decreases |w|
    {
      if |w| == 0 {
        assert [] + [o] == [o];
      } else {
        var w' := w[..|w| - 1];
        assert Recorrido(w', o, d);
        RecorridoFiable(w', o, d);
        assert w == w' + [Siguiente(w', o, d)];
        Avanza(w', o, d);
      }
    }

    /** Every name a walk towards `d` can step to: the next hops stored for `d`. */
    ghost function Candidatos(d: string): (c: set<string>)
      reads this
      ensures forall k :: Salto(k, d) == "" || Salto(k, d) in c
    {
      set k | k in enrutadores && d in enrutadores[k].siguienteSalto :: enrutadores[k].siguienteSalto[d]
    }

    /**
     * What a path query from `o` to `d` may answer: a walk from `o` along
     * the stored next hops, stopped when it reaches `d` (pushed last), when
     * the next hop is missing, or, as `Cicla`, when it would come back to
     * a router it has pushed.
     */
    ghost predicate RespuestaDeCamino(r: Camino, o: string, d: string)
      reads this
    {
      && (o == d ==> r == Termina([d]))
      && (r.Termina? && |r.ruta| > 0 && r.ruta[|r.ruta| - 1] == d ==>
            var w := r.ruta[..|r.ruta| - 1];
            Recorrido(w, o, d) && Siguiente(w, o, d) == d)
      && (r.Termina? && (|r.ruta| == 0 || r.ruta[|r.ruta| - 1] != d) ==>
            Recorrido(r.ruta, o, d) && Siguiente(r.ruta, o, d) == "")
      && (r.Cicla? ==>
            Recorrido(r.ruta, o, d) && |r.ruta| > 0 && Siguiente(r.ruta, o, d) in r.ruta)
    }

    /**
     * On up-to-date tables over positive costs, a path query for a
     * reachable destination returns a shortest path: it neither loops nor
     * stops early, and its cost is the one the cost query reports.
     */
    lemma CaminoMinimo(r: Camino, o: string, d: string)
      requires RespuestaDeCamino(r, o, d) && Fiable(o, d)
      ensures r.Termina? && Entre(enlaces, r.ruta, o, d) && CostoDeCamino(enlaces, r.ruta) == ObtenerCosto(o, d)
    {
      if r.Cicla? {
        RecorridoFiable(r.ruta, o, d);
        assert false;
      }
      if |r.ruta| == 0 || r.ruta[|r.ruta| - 1] != d {
        RecorridoFiable(r.ruta, o, d);
        assert false;
      }
      var w := r.ruta[..|r.ruta| - 1];
      RecorridoFiable(w, o, d);
      CostoAUnoMismo(d);
      assert r.ruta == w + [d];
    }

    /**
     * `obtenerCamino`: follows the next hops for `destino` from `origen`,
     * pushing each router, until it reaches `destino` (pushed last) or a
     * missing entry. A walk that comes back to a router it has pushed
     * would never stop, and is reported as `Cicla`.
     */
    method ObtenerCamino(origen: string, destino: string) returns (r: Camino)
      ensures RespuestaDeCamino(r, origen, destino)
    {
      var camino: seq<string> := [];
      var actual := origen;
      ghost var candidatos := Candidatos(destino) + {origen};
      ghost var vistos: set<string> := {};
      while actual != destino && actual != ""
        invariant Recorrido(camino, origen, destino)
        invariant actual == Siguiente(camino, origen, destino)
        invariant actual == "" || actual in candidatos
        invariant forall x :: x in vistos <==> x in camino
        invariant vistos <= candidatos
        decreases candidatos - vistos
      {
        if actual in camino {
          return Cicla(camino);
        }
        RecorridoSigue(camino, origen, destino);
        camino := camino + [actual];
        vistos := vistos + {actual};
        actual := Salto(actual, destino);
      }
      if actual == destino {
        camino := camino + [destino];
      }
      r := Termina(camino);
    }
  }
}
