/**
 * The derived column "Poder Total", the table sorted on it in descending
 * order (df_ordenado) and its first five rows.
 */
module Power {
  import opened Table
  import opened Sorting

  /** A row together with its "Poder Total" value. */
  datatype Scored = Scored(rec: Record, poder: nat)

  /** One row of the top-5 report: Nombre, Tipo 1, Poder Total. */
  datatype TopRow = TopRow(nombre: string, tipo1: string, poder: nat)

  /** Rows printed by df_ordenado[...].head() (the default of head). */
  const TOP: nat := 5

  function PoderTotal(r: Record): nat
  {
    r.ataque + r.defensa + r.velocidad + r.ps
  }

  /** df with the column "Poder Total" added, row by row. */
  function ConPoder(t: seq<Record>): seq<Scored>
  {
    seq(|t|, i requires 0 <= i < |t| => Scored(t[i], PoderTotal(t[i])))
  }

  function PoderKey(x: Scored): real
  {
    x.poder as real
  }

  /** df_ordenado = df.sort_values("Poder Total", ascending=False) */
  function Ordenado(t: seq<Record>): seq<Scored>
  {
    SortDesc(ConPoder(t), PoderKey)
  }

  function TopProject(x: Scored): TopRow
  {
    TopRow(x.rec.nombre, x.rec.tipo1, x.poder)
  }

  /** df_ordenado[["Nombre", "Tipo 1", "Poder Total"]].head() */
  function Top5(t: seq<Record>): seq<TopRow>
  {
    var h := Head(Ordenado(t), TOP);
    seq(|h|, i requires 0 <= i < |h| => TopProject(h[i]))
  }

  /** Every row of the derived view carries the sum of its own four stats. */
  predicate Consistent(s: seq<Scored>)
  {
    forall i :: 0 <= i < |s| ==> s[i].poder == s[i].rec.ataque + s[i].rec.defensa + s[i].rec.velocidad + s[i].rec.ps
  }

  /** The derived column is the sum of the four stats, row by row. */
  lemma ConPoderSpec(t: seq<Record>)
    ensures |ConPoder(t)| == |t|
    ensures forall i :: 0 <= i < |t| ==> ConPoder(t)[i].rec == t[i]
    ensures Consistent(ConPoder(t))
  {
  }

  /**
   * The sorted view is a permutation of the scored table, has non-increasing
   * Poder Total, and every row still carries its own Poder Total.
   */
  lemma OrdenadoSpec(t: seq<Record>)
    ensures multiset(Ordenado(t)) == multiset(ConPoder(t))
    ensures |Ordenado(t)| == |t|
    ensures forall i, j :: 0 <= i < j < |Ordenado(t)| ==> Ordenado(t)[i].poder >= Ordenado(t)[j].poder
    ensures Consistent(Ordenado(t))
  {
    var o, c := Ordenado(t), ConPoder(t);
    assert |o| == |multiset(o)| == |multiset(c)| == |c|;
    forall i | 0 <= i < |o|
      ensures o[i].poder == o[i].rec.ataque + o[i].rec.defensa + o[i].rec.velocidad + o[i].rec.ps
    {
      assert o[i] in multiset(c);
    }
    forall i, j | 0 <= i < j < |o| ensures o[i].poder >= o[j].poder {
      assert PoderKey(o[i]) >= PoderKey(o[j]);
    }
  }

  /**
   * The top-5 report is the first min(5, n) rows of the sorted view, in
   * non-increasing Poder Total, and no row left out has a larger Poder
   * Total than any row shown.
   */
  lemma Top5Spec(t: seq<Record>)
    ensures |Top5(t)| == if |t| < TOP then |t| else TOP
    ensures forall i :: 0 <= i < |Top5(t)| ==> Top5(t)[i] == TopProject(Ordenado(t)[i])
    ensures forall i, j :: 0 <= i < j < |Top5(t)| ==> Top5(t)[i].poder >= Top5(t)[j].poder
    ensures forall x, i :: x in multiset(ConPoder(t)) - multiset(Head(Ordenado(t), TOP)) && 0 <= i < |Top5(t)| ==>
      Top5(t)[i].poder >= x.poder
  {
    var o := Ordenado(t);
    var h := Head(o, TOP);
    var top := Top5(t);
    assert |top| == |h| && forall i :: 0 <= i < |h| ==> top[i] == TopProject(h[i]);
    assert |o| == |t| by {
      OrdenadoSpec(t);
    }
    assert forall i, j :: 0 <= i < j < |top| ==> top[i].poder >= top[j].poder by {
      assert NonIncreasing(o, PoderKey);
      forall i, j | 0 <= i < j < |top| ensures top[i].poder >= top[j].poder {
        assert PoderKey(o[i]) >= PoderKey(o[j]);
      }
    }
    assert forall x, i :: x in multiset(ConPoder(t)) - multiset(h) && 0 <= i < |top| ==>
      top[i].poder >= x.poder by {
      HeadDominates(o, PoderKey, TOP);
      forall x, i | x in multiset(ConPoder(t)) - multiset(h) && 0 <= i < |top|
        ensures top[i].poder >= x.poder
      {
        assert PoderKey(h[i]) >= PoderKey(x);
      }
    }
  }

  /** Example: A scores 65, B scores 105, and B heads the ranking. */
  lemma TopOneExample()
    ensures var a := Record("A", "X", None, 30, 10, 5, 20);
            var b := Record("B", "X", None, 40, 50, 5, 10);
            PoderTotal(a) == 65 && PoderTotal(b) == 105 && Top5([a, b])[0].nombre == "B"
  {
  }
}
