/**
 * df.groupby("Tipo 1"): the partition of the table by primary type, the
 * per-type PS extremes (ps_extremos) and the ranking of types by mean
 * Velocidad, Ataque and Defensa.
 */
module Groups {
  import opened Table
  import opened Stats
  import opened Sorting
  import StringOrder

  // ---------------------------------------------------------------------
  // Group keys: the distinct primary types, sorted as groupby sorts them
  // ---------------------------------------------------------------------

  predicate StrictlySorted(ks: seq<string>)
  {
    forall i, j :: 0 <= i < j < |ks| ==> StringOrder.Less(ks[i], ks[j])
  }

  /** Adds k to a sorted list of distinct keys, keeping it sorted and distinct. */
  function InsertKey(k: string, ks: seq<string>): (r: seq<string>)
    requires StrictlySorted(ks)
    ensures StrictlySorted(r)
    ensures forall x :: x in r <==> x == k || x in ks
  {
    StringOrder.LessIsStrictTotalOrder();
    if ks == [] then [k]
    else if k == ks[0] then ks
    else if StringOrder.Less(k, ks[0]) then [k] + ks
    else
      assert ks == [ks[0]] + ks[1..];
      assert StringOrder.Less(ks[0], k);
      var rest := InsertKey(k, ks[1..]);
      assert forall x :: x in rest ==> StringOrder.Less(ks[0], x);
      [ks[0]] + rest
  }

  /** The group keys: every primary type of the table once, in ascending order. */
  function Keys(t: seq<Record>): (ks: seq<string>)
    ensures StrictlySorted(ks)
    ensures forall x :: x in ks <==> exists i :: 0 <= i < |t| && t[i].tipo1 == x
  {
    if t == [] then []
    else
      assert forall i :: 1 <= i < |t| ==> t[i] == t[1..][i - 1];
      InsertKey(t[0].tipo1, Keys(t[1..]))
  }

  // ---------------------------------------------------------------------
  // Groups
  // ---------------------------------------------------------------------

  /** One group: its key and its rows, in table order. */
  datatype Group = Group(key: string, rows: seq<Record>)

  function GroupsOf(t: seq<Record>, ks: seq<string>): (gs: seq<Group>)
    ensures |gs| == |ks|
    ensures forall i :: 0 <= i < |ks| ==> gs[i] == Group(ks[i], Members(t, ks[i]))
  {
    if ks == [] then []
    else [Group(ks[0], Members(t, ks[0]))] + GroupsOf(t, ks[1..])
  }

  /** Every key of the table has at least one row. */
  lemma KeysHaveMembers(t: seq<Record>)
    ensures forall k :: k in Keys(t) ==> |Members(t, k)| > 0
  {
  }

  /** df.groupby("Tipo 1"): one non-empty group per key, in key order. */
  function GroupBy(t: seq<Record>): (gs: seq<Group>)
    ensures forall g :: 0 <= g < |gs| ==> |gs[g].rows| > 0
  {
    var ks := Keys(t);
    KeysHaveMembers(t);
    assert forall g :: 0 <= g < |ks| ==> ks[g] in ks;
    GroupsOf(t, ks)
  }

  /** The rows of all groups, one group after the other. */
  function AllRows(gs: seq<Group>): seq<Record>
  {
    if gs == [] then [] else gs[0].rows + AllRows(gs[1..])
  }

  predicate Distinct(ks: seq<string>)
  {
    forall i, j :: 0 <= i < j < |ks| ==> ks[i] != ks[j]
  }

  lemma {:induction false} AllRowsOfEmptyTable(ks: seq<string>)
    ensures AllRows(GroupsOf([], ks)) == []
  {
    if ks != [] {
      AllRowsOfEmptyTable(ks[1..]);
    }
  }

  /** Adding a row in front adds it to the group of its key, if there is one. */
  lemma {:induction false} AllRowsOfCons(r: Record, t: seq<Record>, ks: seq<string>)
    requires Distinct(ks)
    ensures multiset(AllRows(GroupsOf([r] + t, ks))) ==
      (if r.tipo1 in ks then multiset{r} else multiset{}) + multiset(AllRows(GroupsOf(t, ks)))
  {
    if ks != [] {
      assert ([r] + t)[1..] == t;
      assert Distinct(ks[1..]);
      assert r.tipo1 in ks <==> r.tipo1 == ks[0] || r.tipo1 in ks[1..];
      assert ks[0] !in ks[1..];
      AllRowsOfCons(r, t, ks[1..]);
    }
  }

  /** With distinct keys covering every row, the groups hold each row exactly once. */
  lemma {:induction false} AllRowsCover(t: seq<Record>, ks: seq<string>)
    requires Distinct(ks)
    requires forall i :: 0 <= i < |t| ==> t[i].tipo1 in ks
    ensures multiset(AllRows(GroupsOf(t, ks))) == multiset(t)
  {
    if t == [] {
      AllRowsOfEmptyTable(ks);
    } else {
      assert t == [t[0]] + t[1..];
      AllRowsCover(t[1..], ks);
      AllRowsOfCons(t[0], t[1..], ks);
    }
  }

  /** The keys of GroupBy are distinct. */
  lemma KeysDistinct(t: seq<Record>)
    ensures Distinct(Keys(t))
  {
    var ks := Keys(t);
    forall i, j | 0 <= i < j < |ks| ensures ks[i] != ks[j] {
      StringOrder.LessIrreflexive(ks[i]);
    }
  }

  /** A row lies in a group iff the group's key is its type, and some group has its type. */
  lemma GroupMembership(t: seq<Record>)
    ensures forall i, g :: 0 <= i < |t| && 0 <= g < |GroupBy(t)| ==>
      (t[i] in GroupBy(t)[g].rows <==> GroupBy(t)[g].key == t[i].tipo1)
    ensures forall i :: 0 <= i < |t| ==> exists g :: 0 <= g < |GroupBy(t)| && GroupBy(t)[g].key == t[i].tipo1
  {
    var ks := Keys(t);
    var gs := GroupBy(t);
    forall i | 0 <= i < |t| ensures exists g :: 0 <= g < |gs| && gs[g].key == t[i].tipo1 {
      assert t[i].tipo1 in ks;
      var g :| 0 <= g < |ks| && ks[g] == t[i].tipo1;
      assert gs[g].key == t[i].tipo1;
    }
  }

  /**
   * Grouping by Tipo 1 partitions the table: keys are distinct and sorted,
   * every group is non-empty and holds exactly the rows of its key in table
   * order, every row has a group, and together the groups hold every row
   * exactly once.
   */
  lemma GroupByPartition(t: seq<Record>)
    ensures forall i, j :: 0 <= i < j < |GroupBy(t)| ==> StringOrder.Less(GroupBy(t)[i].key, GroupBy(t)[j].key)
    ensures forall g :: 0 <= g < |GroupBy(t)| ==>
      |GroupBy(t)[g].rows| > 0 && GroupBy(t)[g].rows == Members(t, GroupBy(t)[g].key)
    ensures forall i, g :: 0 <= i < |t| && 0 <= g < |GroupBy(t)| ==>
      (t[i] in GroupBy(t)[g].rows <==> GroupBy(t)[g].key == t[i].tipo1)
    ensures forall i :: 0 <= i < |t| ==> exists g :: 0 <= g < |GroupBy(t)| && GroupBy(t)[g].key == t[i].tipo1
    ensures multiset(AllRows(GroupBy(t))) == multiset(t)
    ensures |GroupBy(t)| == 0 <==> |t| == 0
  {
    var ks := Keys(t);
    var gs := GroupBy(t);
    assert gs == GroupsOf(t, ks);
    GroupMembership(t);
    assert multiset(AllRows(gs)) == multiset(t) by {
      KeysDistinct(t);
      assert forall i :: 0 <= i < |t| ==> t[i].tipo1 in ks;
      AllRowsCover(t, ks);
    }
    assert |gs| == 0 <==> |t| == 0 by {
      if |t| > 0 {
        assert t[0].tipo1 in ks;
      }
    }
  }

  // ---------------------------------------------------------------------
  // ps_extremos: per type, the names and values of the largest and smallest PS
  // ---------------------------------------------------------------------

  /** One row of ps_extremos. */
  datatype PsExtremos = PsExtremos(
    tipo: string, mayorPs: string, maxPs: nat, menorPs: string, minPs: nat)

  /**
   * The lambda applied to each group: the name of the first row of the
   * group with the largest PS and that PS, and likewise for the smallest.
   */
  function ExtremosDe(g: Group): (e: PsExtremos)
    requires |g.rows| > 0
    ensures e.tipo == g.key
    ensures e.minPs <= e.maxPs
    ensures forall r :: r in g.rows ==> e.minPs <= r.ps <= e.maxPs
    ensures exists k :: (0 <= k < |g.rows| && g.rows[k].nombre == e.mayorPs && g.rows[k].ps == e.maxPs &&
      forall j :: 0 <= j < k ==> g.rows[j].ps < e.maxPs)
    ensures exists k :: (0 <= k < |g.rows| && g.rows[k].nombre == e.menorPs && g.rows[k].ps == e.minPs &&
      forall j :: 0 <= j < k ==> g.rows[j].ps > e.minPs)
  {
    var col := ColumnOf(g.rows, PS);
    var hi := ArgMax(col);
    var lo := ArgMin(col);
    assert forall r :: r in g.rows ==> exists j :: 0 <= j < |g.rows| && g.rows[j] == r;
    PsExtremos(g.key, g.rows[hi].nombre, g.rows[hi].ps, g.rows[lo].nombre, g.rows[lo].ps)
  }

  /** ps_extremos: one summary per group, in key order. */
  function PsExtremosPorTipo(t: seq<Record>): (r: seq<PsExtremos>)
    ensures |r| == |GroupBy(t)|
    ensures forall i :: 0 <= i < |r| ==> r[i].tipo == GroupBy(t)[i].key && r[i] == ExtremosDe(GroupBy(t)[i])
  {
    var gs := GroupBy(t);
    seq(|gs|, i requires 0 <= i < |gs| => ExtremosDe(gs[i]))
  }

  // ---------------------------------------------------------------------
  // Means per type and the rankings built on them
  // ---------------------------------------------------------------------

  /** A group's mean of one column, kept as its exact total and row count. */
  datatype TypeMean = TypeMean(tipo: string, total: int, count: nat)

  /** The exact mean total / count (0 for an empty count, which no group has). */
  function Media(m: TypeMean): real
  {
    if m.count == 0 then 0.0 else (m.total as real) / (m.count as real)
  }

  /** Comparing means is comparing cross products of totals and counts. */
  lemma MediaCrossMultiply(a: TypeMean, b: TypeMean)
    requires a.count > 0 && b.count > 0
    ensures Media(a) >= Media(b) <==> a.total * b.count >= b.total * a.count
  {
  }

  /** df.groupby("Tipo 1")[c].mean(), one entry per group in key order. */
  function MeansBy(t: seq<Record>, c: Column): (ms: seq<TypeMean>)
    ensures |ms| == |GroupBy(t)|
    ensures forall i :: 0 <= i < |ms| ==>
      && ms[i].tipo == GroupBy(t)[i].key
      && ms[i].count == |GroupBy(t)[i].rows| > 0
      && Media(ms[i]) == Mean(ColumnOf(GroupBy(t)[i].rows, c))
  {
    var gs := GroupBy(t);
    seq(|gs|, i requires 0 <= i < |gs| => TypeMean(gs[i].key, Sum(ColumnOf(gs[i].rows, c)), |gs[i].rows|))
  }

  /** ....mean().sort_values(ascending=False) */
  function RankByMean(t: seq<Record>, c: Column): seq<TypeMean>
  {
    SortDesc(MeansBy(t, c), Media)
  }

  /** The ranking is a permutation of the per-type means with non-increasing mean. */
  lemma RankByMeanSpec(t: seq<Record>, c: Column)
    ensures multiset(RankByMean(t, c)) == multiset(MeansBy(t, c))
    ensures |RankByMean(t, c)| == |GroupBy(t)|
    ensures forall i, j :: 0 <= i < j < |RankByMean(t, c)| ==> Media(RankByMean(t, c)[i]) >= Media(RankByMean(t, c)[j])
  {
    var r, m := RankByMean(t, c), MeansBy(t, c);
    assert |r| == |multiset(r)| == |multiset(m)| == |m|;
  }

  /** velocidad_media */
  function VelocidadMedia(t: seq<Record>): seq<TypeMean>
  {
    RankByMean(t, Velocidad)
  }

  /** The first entry of a non-empty ranking has the largest mean of all types. */
  lemma RankFirstIsLargest(t: seq<Record>, c: Column)
    requires |t| > 0
    ensures |RankByMean(t, c)| > 0
    ensures exists g :: (0 <= g < |GroupBy(t)| && GroupBy(t)[g].key == RankByMean(t, c)[0].tipo &&
      forall h :: 0 <= h < |GroupBy(t)| ==>
        Mean(ColumnOf(GroupBy(t)[g].rows, c)) >= Mean(ColumnOf(GroupBy(t)[h].rows, c)))
  {
    var gs := GroupBy(t);
    var r, ms := RankByMean(t, c), MeansBy(t, c);
    assert Keys(t) != [] by {
      assert t[0].tipo1 in Keys(t);
    }
    RankByMeanSpec(t, c);
    FirstIsLargest(r, ms, Media);
    var g :| 0 <= g < |ms| && ms[g] == r[0];
    assert gs[g].key == r[0].tipo;
  }

  /**
   * velocidad_media.index[0]: a type whose exact mean Velocidad is at least
   * every type's; None where index[0] raises (empty table).
   */
  function TipoMayorVelocidad(t: seq<Record>): (r: Option<string>)
    ensures r.Some? <==> |t| > 0
    ensures r.Some? ==> exists g :: (0 <= g < |GroupBy(t)| && GroupBy(t)[g].key == r.value &&
      forall h :: 0 <= h < |GroupBy(t)| ==>
        Mean(ColumnOf(GroupBy(t)[g].rows, Velocidad)) >= Mean(ColumnOf(GroupBy(t)[h].rows, Velocidad)))
  {
    if |t| == 0 then None
    else
      RankFirstIsLargest(t, Velocidad);
      Some(VelocidadMedia(t)[0].tipo)
  }

  /** Rows printed by .head(3) for the top types by mean. */
  const TOP_TIPOS: nat := 3

  /** The first min(3, #types) entries of the ranking by mean c. */
  function TopTres(t: seq<Record>, c: Column): seq<TypeMean>
  {
    Head(RankByMean(t, c), TOP_TIPOS)
  }

  /** ataque_stats.sort_values("mean", ascending=False).head(3), means only. */
  function TopAtaque(t: seq<Record>): seq<TypeMean>
  {
    TopTres(t, Ataque)
  }

  /** defensa_stats.head(3) */
  function TopDefensa(t: seq<Record>): seq<TypeMean>
  {
    TopTres(t, Defensa)
  }

  /**
   * A top-3 list is the first min(3, #types) entries of the ranking, its
   * means do not increase, each entry is a type's mean, and no type left out
   * has a larger mean than any type shown.
   */
  lemma TopTresSpec(t: seq<Record>, c: Column)
    ensures var top := TopTres(t, c);
      && |top| == (if |GroupBy(t)| < TOP_TIPOS then |GroupBy(t)| else TOP_TIPOS)
      && top == RankByMean(t, c)[..|top|]
      && (forall i, j :: 0 <= i < j < |top| ==> Media(top[i]) >= Media(top[j]))
      && (forall i :: 0 <= i < |top| ==> top[i] in MeansBy(t, c))
      && (forall x, i :: x in multiset(MeansBy(t, c)) - multiset(top) && 0 <= i < |top| ==> Media(top[i]) >= Media(x))
  {
    var r := RankByMean(t, c);
    RankByMeanSpec(t, c);
    HeadDominates(r, Media, TOP_TIPOS);
    var top := TopTres(t, c);
    forall i | 0 <= i < |top| ensures top[i] in MeansBy(t, c) {
      assert top[i] in multiset(r);
    }
  }
}
