/**
 * Paths over the directed link map of a network, their costs, and what it
 * means for a cost to be the shortest one. The network stores every
 * logical link as two directed entries keyed by (origin, destination).
 */
module Grafo {

  /** Directed link costs keyed by (origin, destination). */
  type Enlaces = map<(string, string), int>

  ghost predicate NoNegativos(enlaces: Enlaces) {
    forall e :: e in enlaces ==> enlaces[e] >= 0
  }

  ghost predicate Positivos(enlaces: Enlaces) {
    forall e :: e in enlaces ==> enlaces[e] > 0
  }

  /** Both directions of every link are present and carry the same cost. */
  ghost predicate Simetricos(enlaces: Enlaces) {
    forall e :: e in enlaces ==> (e.1, e.0) in enlaces && enlaces[(e.1, e.0)] == enlaces[e]
  }

  /** A non-empty sequence of routers in which every consecutive pair is a link. */
  ghost predicate EsCamino(enlaces: Enlaces, p: seq<string>) {
    |p| >= 1 && forall i :: 0 <= i < |p| - 1 ==> (p[i], p[i + 1]) in enlaces
  }

  /** Sum of the link costs along a path. */
  ghost function CostoDeCamino(enlaces: Enlaces, p: seq<string>): int
    requires EsCamino(enlaces, p)
    decreases |p|
  {
    if |p| == 1 then 0
    else
      CostoDeCamino(enlaces, p[..|p| - 1]) + enlaces[(p[|p| - 2], p[|p| - 1])]
  }

  ghost predicate Entre(enlaces: Enlaces, p: seq<string>, a: string, b: string) {
    EsCamino(enlaces, p) && p[0] == a && p[|p| - 1] == b
  }

  ghost predicate Alcanzable(enlaces: Enlaces, a: string, b: string) {
    exists p :: Entre(enlaces, p, a, b)
  }

  /** c is the cost of some path from a to b and no path from a to b is cheaper. */
  ghost predicate CostoMinimo(enlaces: Enlaces, a: string, b: string, c: int) {
    && (exists p :: Entre(enlaces, p, a, b) && CostoDeCamino(enlaces, p) == c)
    && (forall p :: Entre(enlaces, p, a, b) ==> c <= CostoDeCamino(enlaces, p))
  }

  /**
   * A potential that no link can undercut: following a link from a node
   * that has a value leads to a node whose value is at most the sum.
   */
  ghost predicate Factible(enlaces: Enlaces, pot: map<string, int>) {
    forall e :: e in enlaces && e.0 in pot ==> e.1 in pot && pot[e.1] <= pot[e.0] + enlaces[e]
  }

  /** Extending a path by one link adds that link's cost. */
  lemma CaminoMasEnlace(enlaces: Enlaces, p: seq<string>, v: string)
    requires EsCamino(enlaces, p) && (p[|p| - 1], v) in enlaces
    ensures EsCamino(enlaces, p + [v])
    ensures CostoDeCamino(enlaces, p + [v]) == CostoDeCamino(enlaces, p) + enlaces[(p[|p| - 1], v)]
  {
    assert (p + [v])[..|p|] == p;
  }

  /** Prepending one link to a path adds that link's cost. */
  lemma {:induction false} EnlaceMasCamino(enlaces: Enlaces, x: string, p: seq<string>)
    requires EsCamino(enlaces, p) && (x, p[0]) in enlaces
    ensures EsCamino(enlaces, [x] + p)
    ensures CostoDeCamino(enlaces, [x] + p) == enlaces[(x, p[0])] + CostoDeCamino(enlaces, p)
    decreases |p|
  {
    var q := [x] + p;
    forall i | 0 <= i < |q| - 1 ensures (q[i], q[i + 1]) in enlaces {
      if i > 0 {
        assert q[i] == p[i - 1] && q[i + 1] == p[i];
      }
    }
    if |p| == 1 {
      assert q[..|q| - 1] == [x];
    } else {
      var init := p[..|p| - 1];
      assert EsCamino(enlaces, init) by {
        forall i | 0 <= i < |init| - 1 ensures (init[i], init[i + 1]) in enlaces {
          assert init[i] == p[i] && init[i + 1] == p[i + 1];
        }
      }
      EnlaceMasCamino(enlaces, x, init);
      assert q[..|q| - 1] == [x] + init;
    }
  }

  lemma {:induction false} CostoNoNegativo(enlaces: Enlaces, p: seq<string>)
    requires NoNegativos(enlaces) && EsCamino(enlaces, p)
    ensures CostoDeCamino(enlaces, p) >= 0
    decreases |p|
  {
    if |p| > 1 {
      var init := p[..|p| - 1];
      assert (p[|p| - 2], p[|p| - 1]) in enlaces;
      CostoNoNegativo(enlaces, init);
    }
  }

  /**
   * The certificate behind every shortest-cost claim: along any path that
   * starts at a node with a value, a feasible potential grows by at most
   * the path's cost.
   */
  lemma {:induction false} CotaFactible(enlaces: Enlaces, pot: map<string, int>, p: seq<string>)
    requires Factible(enlaces, pot) && EsCamino(enlaces, p) && p[0] in pot
    ensures p[|p| - 1] in pot && pot[p[|p| - 1]] <= pot[p[0]] + CostoDeCamino(enlaces, p)
    decreases |p|
  {
    if |p| > 1 {
      var init := p[..|p| - 1];
      CotaFactible(enlaces, pot, init);
      assert (p[|p| - 2], p[|p| - 1]) in enlaces;
    }
  }

  /** With non-negative costs the shortest cost from a router to itself is 0. */
  lemma MinimoAUnoMismo(enlaces: Enlaces, a: string, c: int)
    requires NoNegativos(enlaces) && CostoMinimo(enlaces, a, a, c)
    ensures c == 0
  {
    var p :| Entre(enlaces, p, a, a) && CostoDeCamino(enlaces, p) == c;
    CostoNoNegativo(enlaces, p);
    assert Entre(enlaces, [a], a, a);
  }

  /** A shortest cost is unique. */
  lemma MinimoUnico(enlaces: Enlaces, a: string, b: string, c: int, c': int)
    requires CostoMinimo(enlaces, a, b, c) && CostoMinimo(enlaces, a, b, c')
    ensures c == c'
  {
    var p :| Entre(enlaces, p, a, b) && CostoDeCamino(enlaces, p) == c;
    var p' :| Entre(enlaces, p', a, b) && CostoDeCamino(enlaces, p') == c';
  }

  function Invertido(p: seq<string>): (r: seq<string>)
    ensures |r| == |p|
    ensures forall i :: 0 <= i < |p| ==> r[i] == p[|p| - 1 - i]
  {
    if p == [] then [] else Invertido(p[1..]) + [p[0]]
  }

  /** Over symmetric links a path read backwards is a path of the same cost. */
  lemma {:induction false} CaminoInvertido(enlaces: Enlaces, p: seq<string>)
    requires Simetricos(enlaces) && EsCamino(enlaces, p)
    ensures EsCamino(enlaces, Invertido(p))
    ensures CostoDeCamino(enlaces, Invertido(p)) == CostoDeCamino(enlaces, p)
    decreases |p|
  {
    if |p| > 1 {
      var q := p[1..];
      assert EsCamino(enlaces, q) by {
        forall i | 0 <= i < |q| - 1 ensures (q[i], q[i + 1]) in enlaces {
          assert q[i] == p[i + 1] && q[i + 1] == p[i + 2];
        }
      }
      assert (p[0], q[0]) in enlaces;
      assert [p[0]] + q == p;
      EnlaceMasCamino(enlaces, p[0], q);
      CaminoInvertido(enlaces, q);
      var rq := Invertido(q);
      assert rq[|rq| - 1] == q[0];
      assert (q[0], p[0]) in enlaces && enlaces[(q[0], p[0])] == enlaces[(p[0], q[0])];
      CaminoMasEnlace(enlaces, rq, p[0]);
      assert Invertido(p) == rq + [p[0]];
    }
  }

  /** Over symmetric links the shortest cost does not depend on the direction. */
  lemma MinimoSimetrico(enlaces: Enlaces, a: string, b: string, c: int)
    requires Simetricos(enlaces) && CostoMinimo(enlaces, a, b, c)
    ensures CostoMinimo(enlaces, b, a, c)
  {
    var p :| Entre(enlaces, p, a, b) && CostoDeCamino(enlaces, p) == c;
    CaminoInvertido(enlaces, p);
    assert Entre(enlaces, Invertido(p), b, a);
    forall q | Entre(enlaces, q, b, a) ensures c <= CostoDeCamino(enlaces, q) {
      CaminoInvertido(enlaces, q);
      assert Entre(enlaces, Invertido(q), a, b);
    }
  }
}
