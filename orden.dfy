/**
 * The order in which the search frontier hands out its entries. The frontier
 * is a priority queue of (distance, router name) pairs ordered by
 * `greater<pair<int, string>>`, so it yields the smallest pair first: the
 * smaller distance, and on equal distances the name that is smaller as a
 * std::string (character codes compared left to right, a proper prefix
 * first).
 */
module Orden {

  type Entrada = (int, string)

  predicate MenorCadena(a: string, b: string)
    decreases |a|
  {
    if |a| == 0 then |b| > 0
    else if |b| == 0 then false
    else a[0] < b[0] || (a[0] == b[0] && MenorCadena(a[1..], b[1..]))
  }

  predicate MenorPar(p: Entrada, q: Entrada) {
    p.0 < q.0 || (p.0 == q.0 && MenorCadena(p.1, q.1))
  }

  /** m is the entry the priority queue pops from `cola`. */
  predicate EsMinimo(m: Entrada, cola: set<Entrada>) {
    m in cola && forall q :: q in cola ==> q == m || MenorPar(m, q)
  }

  lemma {:induction false} MenorCadenaTransitiva(a: string, b: string, c: string)
    requires MenorCadena(a, b) && MenorCadena(b, c)
    ensures MenorCadena(a, c)
    decreases |a|
  {
    if |a| > 0 && a[0] == b[0] && b[0] == c[0] {
      MenorCadenaTransitiva(a[1..], b[1..], c[1..]);
    }
  }

  lemma {:induction false} MenorCadenaTotal(a: string, b: string)
    requires a != b
    ensures MenorCadena(a, b) || MenorCadena(b, a)
    decreases |a|
  {
    if |a| > 0 && |b| > 0 && a[0] == b[0] {
      assert a == [a[0]] + a[1..] && b == [b[0]] + b[1..];
      MenorCadenaTotal(a[1..], b[1..]);
    }
  }

  lemma {:induction false} MenorCadenaIrreflexiva(a: string)
    ensures !MenorCadena(a, a)
    decreases |a|
  {
    if |a| > 0 {
      MenorCadenaIrreflexiva(a[1..]);
    }
  }

  lemma MenorParTransitiva(p: Entrada, q: Entrada, r: Entrada)
    requires MenorPar(p, q) && MenorPar(q, r)
    ensures MenorPar(p, r)
  {
    if p.0 == q.0 == r.0 {
      MenorCadenaTransitiva(p.1, q.1, r.1);
    }
  }

  /** Any two distinct entries are ordered one way or the other, never both. */
  lemma MenorParTotal(p: Entrada, q: Entrada)
    requires p != q
    ensures MenorPar(p, q) != MenorPar(q, p)
  {
    if p.0 == q.0 {
      MenorCadenaTotal(p.1, q.1);
      if MenorCadena(p.1, q.1) && MenorCadena(q.1, p.1) {
        MenorCadenaTransitiva(p.1, q.1, p.1);
        MenorCadenaIrreflexiva(p.1);
      }
    }
  }

  /** A non-empty frontier has exactly one entry to pop. */
  lemma {:induction false} MinimoExiste(cola: set<Entrada>)
    requires cola != {}
    ensures exists m :: EsMinimo(m, cola)
    ensures forall m, m' :: EsMinimo(m, cola) && EsMinimo(m', cola) ==> m == m'
    decreases |cola|
  {
    var x :| x in cola;
    var resto := cola - {x};
    if resto == {} {
      assert cola == {x};
      assert EsMinimo(x, cola);
    } else {
      MinimoExiste(resto);
      var m :| EsMinimo(m, resto);
      if MenorPar(x, m) {
        forall q | q in cola ensures q == x || MenorPar(x, q) {
          if q != x && q != m {
            MenorParTransitiva(x, m, q);
          }
        }
        assert EsMinimo(x, cola);
      } else {
        MenorParTotal(x, m);
        assert EsMinimo(m, cola);
      }
    }
    forall m, m' | EsMinimo(m, cola) && EsMinimo(m', cola) ensures m == m' {
      if m != m' {
        MenorParTotal(m, m');
      }
    }
  }
}
