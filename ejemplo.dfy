module Ejemplo {
  import opened Grafo
  import opened Enrutadores
  import opened Redes

  /** The topology `main` writes when there is no topology file. */
  function LineasDeEjemplo(): seq<(string, string, int)> {
    [("A", "B", 5), ("A", "C", 10), ("B", "C", 2), ("B", "D", 3), ("C", "D", 1)]
  }

  /** The links after the five `agregarEnlace` calls of the sample: both directions of each line. */
  function EnlacesDeEjemplo(): Enlaces {
    map[("A", "B") := 5, ("B", "A") := 5, ("A", "C") := 10, ("C", "A") := 10, ("B", "C") := 2,
        ("C", "B") := 2, ("B", "D") := 3, ("D", "B") := 3, ("C", "D") := 1, ("D", "C") := 1]
  }

  lemma EjemploCargado()
    ensures ConEnlaces(map[], LineasDeEjemplo()) == EnlacesDeEjemplo()
    ensures Nombres(LineasDeEjemplo()) == {"A", "B", "C", "D"}
  {
    var l := LineasDeEjemplo();
    CargaDeLinea(map[], map[], l, 0);
    CargaDeLinea(map[], map[], l, 1);
    CargaDeLinea(map[], map[], l, 2);
    CargaDeLinea(map[], map[], l, 3);
    CargaDeLinea(map[], map[], l, 4);
    assert l[..5] == l;
  }

  /** None of the sample's routers is named "". */
  lemma SinNombreVacio(enrutadores: map<string, Enrutador>)
    requires enrutadores.Keys == {"A", "B", "C", "D"}
    ensures "" !in enrutadores
  {
    assert |""| == 0 && |"A"| == |"B"| == |"C"| == |"D"| == 1;
  }

  /**
   * On the sample links the shortest cost from A to D is 8 (A-B-D and
   * A-B-C-D both cost 8): the path A-B-D costs 8, and the potential
   * A:0, B:5, C:7, D:8 shows no path costs less.
   */
  lemma CostoDeEjemplo()
    ensures Positivos(EnlacesDeEjemplo())
    ensures CostoMinimo(EnlacesDeEjemplo(), "A", "D", 8)
  {
    EjemploPositivo();
    CaminoDeEjemplo();
    forall q | Entre(EnlacesDeEjemplo(), q, "A", "D") ensures 8 <= CostoDeCamino(EnlacesDeEjemplo(), q) {
      CotaDeEjemplo(q);
    }
  }

  /** A-B-D is a path of cost 5 + 3. */
  lemma CaminoDeEjemplo()
    ensures Entre(EnlacesDeEjemplo(), ["A", "B", "D"], "A", "D")
    ensures CostoDeCamino(EnlacesDeEjemplo(), ["A", "B", "D"]) == 8
  {
    var e := EnlacesDeEjemplo();
    assert ("A", "B") in e && e[("A", "B")] == 5;
    assert ("B", "D") in e && e[("B", "D")] == 3;
    CaminoMasEnlace(e, ["A"], "B");
    assert ["A"] + ["B"] == ["A", "B"];
    CaminoMasEnlace(e, ["A", "B"], "D");
    assert ["A", "B"] + ["D"] == ["A", "B", "D"];
  }

  /** No path from A to D costs less than 8. */
  lemma CotaDeEjemplo(q: seq<string>)
    requires Entre(EnlacesDeEjemplo(), q, "A", "D")
    ensures 8 <= CostoDeCamino(EnlacesDeEjemplo(), q)
  {
    var pot := map["A" := 0, "B" := 5, "C" := 7, "D" := 8];
    EjemploFactible(pot);
    CotaFactible(EnlacesDeEjemplo(), pot, q);
  }

  /** Every sample link costs more than 0. */
  lemma EjemploPositivo()
    ensures Positivos(EnlacesDeEjemplo())
  {
  }

  /** No sample link lets the potential A:0, B:5, C:7, D:8 grow by more than its cost. */
  lemma EjemploFactible(pot: map<string, int>)
    requires pot == map["A" := 0, "B" := 5, "C" := 7, "D" := 8]
    ensures Factible(EnlacesDeEjemplo(), pot)
  {
  }

  /** What loading the sample topology into an empty network gives, in the terms the queries use. */
  lemma EjemploCompleto()
    ensures Nombres(LineasDeEjemplo()) == {"A", "B", "C", "D"}
    ensures Positivos(ConEnlaces(map[], LineasDeEjemplo()))
    ensures CostoMinimo(ConEnlaces(map[], LineasDeEjemplo()), "A", "D", 8)
  {
    EjemploCargado();
    CostoDeEjemplo();
  }

  /** `main` loading the topology it writes by default. */
  method RedDeEjemplo() returns (red: Red)
    ensures fresh(red)
    ensures red.Valid() && red.TablasAlDia()
    ensures red.enrutadores.Keys == {"A", "B", "C", "D"} && red.enlaces == ConEnlaces(map[], LineasDeEjemplo())
  {
    red := new Red();
    red.CargarTopologia(LineasDeEjemplo());
    EjemploCompleto();
  }

  /**
   * Queries from A to D on the sample network: the cost is 8 and the path
   * goes from A to D at that cost.
   */
  method ConsultasDeEjemplo(red: Red) returns (costo: int, camino: Camino)
    requires red.Valid() && red.TablasAlDia()
    requires red.enrutadores.Keys == {"A", "B", "C", "D"} && red.enlaces == ConEnlaces(map[], LineasDeEjemplo())
    ensures costo == 8
    ensures camino.Termina? && Entre(red.enlaces, camino.ruta, "A", "D") && CostoDeCamino(red.enlaces, camino.ruta) == 8
  {
    EjemploCompleto();
    costo := red.ObtenerCosto("A", "D");
    MinimoUnico(red.enlaces, "A", "D", costo, 8);
    SinNombreVacio(red.enrutadores);
    camino := red.ObtenerCamino("A", "D");
    red.CaminoMinimo(camino, "A", "D");
  }
}
