/**
 * Descriptive statistics over integer columns: mode, idxmax/idxmin,
 * max/min and range, exact mean, and the count of present secondary types.
 */
module Stats {
  import opened Table

  // ---------------------------------------------------------------------
  // idxmax / idxmin: the first position of a largest / smallest value
  // ---------------------------------------------------------------------

  predicate IsFirstMax(s: seq<int>, k: int)
  {
    && 0 <= k < |s|
    && (forall j :: 0 <= j < |s| ==> s[j] <= s[k])
    && (forall j :: 0 <= j < k ==> s[j] < s[k])
  }

  predicate IsFirstMin(s: seq<int>, k: int)
  {
    && 0 <= k < |s|
    && (forall j :: 0 <= j < |s| ==> s[k] <= s[j])
    && (forall j :: 0 <= j < k ==> s[k] < s[j])
  }

  /** Series.idxmax() on a default integer index. */
  function ArgMax(s: seq<int>): (k: nat)
    requires |s| > 0
    ensures IsFirstMax(s, k)
  {
    if |s| == 1 then 0
    else
      var k := ArgMax(s[..|s| - 1]);
      if s[|s| - 1] > s[k] then |s| - 1 else k
  }

  /** Series.idxmin() on a default integer index. */
  function ArgMin(s: seq<int>): (k: nat)
    requires |s| > 0
    ensures IsFirstMin(s, k)
  {
    if |s| == 1 then 0
    else
      var k := ArgMin(s[..|s| - 1]);
      if s[|s| - 1] < s[k] then |s| - 1 else k
  }

  function Max(s: seq<int>): (m: int)
    requires |s| > 0
    ensures m in s
    ensures forall i :: 0 <= i < |s| ==> s[i] <= m
  {
    s[ArgMax(s)]
  }

  function Min(s: seq<int>): (m: int)
    requires |s| > 0
    ensures m in s
    ensures forall i :: 0 <= i < |s| ==> m <= s[i]
  {
    s[ArgMin(s)]
  }

  /** max - min: never negative, and zero exactly on a constant column. */
  function Range(s: seq<int>): (r: int)
    requires |s| > 0
    ensures r >= 0
    ensures r == 0 <==> forall i, j :: 0 <= i < |s| && 0 <= j < |s| ==> s[i] == s[j]
  {
    Max(s) - Min(s)
  }

  // ---------------------------------------------------------------------
  // mode()[0]: the smallest of the most frequent values
  // ---------------------------------------------------------------------

  /** Number of occurrences of v in s. */
  function Freq(s: seq<int>, v: int): nat
  {
    multiset(s)[v]
  }

  /** The most frequent value of s among the candidates c, smallest on ties. */
  function ModeAmong(s: seq<int>, c: seq<int>): (m: int)
    requires |c| > 0
    ensures m in c
    ensures forall i :: 0 <= i < |c| ==> Freq(s, c[i]) <= Freq(s, m)
    ensures forall i :: 0 <= i < |c| && Freq(s, c[i]) == Freq(s, m) ==> m <= c[i]
  {
    if |c| == 1 then c[0]
    else
      var m := ModeAmong(s, c[1..]);
      assert forall i :: 1 <= i < |c| ==> c[i] == c[1..][i - 1];
      if Freq(s, c[0]) > Freq(s, m) || (Freq(s, c[0]) == Freq(s, m) && c[0] < m) then c[0] else m
  }

  /**
   * Series.mode()[0]: a value of s with the largest frequency of any value;
   * among the values with that frequency it is the smallest.
   */
  function Mode(s: seq<int>): (m: int)
    requires |s| > 0
    ensures m in s
    ensures forall v :: Freq(s, v) <= Freq(s, m)
    ensures forall v :: Freq(s, v) == Freq(s, m) ==> m <= v
  {
    var m := ModeAmong(s, s);
    assert forall v :: v in s <==> exists i :: 0 <= i < |s| && s[i] == v;
    m
  }

  // ---------------------------------------------------------------------
  // mean, kept exact
  // ---------------------------------------------------------------------

  function Sum(s: seq<int>): int
  {
    if s == [] then 0 else s[0] + Sum(s[1..])
  }

  /** Series.mean(), as an exact rational rather than a float. */
  function Mean(s: seq<int>): real
    requires |s| > 0
  {
    (Sum(s) as real) / (|s| as real)
  }

  lemma {:induction false} SumBounds(s: seq<int>, lo: int, hi: int)
    requires forall i :: 0 <= i < |s| ==> lo <= s[i] <= hi
    ensures |s| * lo <= Sum(s) <= |s| * hi
  {
    if s != [] {
      SumBounds(s[1..], lo, hi);
      assert |s| * lo == lo + |s[1..]| * lo;
      assert |s| * hi == hi + |s[1..]| * hi;
    }
  }

  /** An integer total between n * lo and n * hi has its exact mean between lo and hi. */
  lemma QuotientBounds(total: int, n: int, lo: int, hi: int)
    requires n > 0 && n * lo <= total <= n * hi
    ensures lo as real <= (total as real) / (n as real) <= hi as real
  {
  }

  /** The mean lies between the minimum and the maximum of the column. */
  lemma MeanWithinRange(s: seq<int>)
    requires |s| > 0
    ensures Min(s) as real <= Mean(s) <= Max(s) as real
  {
    SumBounds(s, Min(s), Max(s));
    QuotientBounds(Sum(s), |s|, Min(s), Max(s));
  }

  // ---------------------------------------------------------------------
  // notnull().sum() over Tipo 2
  // ---------------------------------------------------------------------

  /** df["Tipo 2"].notnull().sum(): rows whose secondary type is present. */
  function DosTipos(t: seq<Record>): (n: nat)
    ensures n <= |t|
    ensures n == 0 <==> forall i :: 0 <= i < |t| ==> t[i].tipo2.None?
    ensures n == |t| <==> forall i :: 0 <= i < |t| ==> t[i].tipo2.Some?
  {
    if t == [] then 0
    else
      assert forall i :: 1 <= i < |t| ==> t[i] == t[1..][i - 1];
      (if t[0].tipo2.Some? then 1 else 0) + DosTipos(t[1..])
  }

  /** df["Tipo 2"].isnull().sum(): rows without a secondary type. */
  function SinSegundoTipo(t: seq<Record>): nat
  {
    if t == [] then 0
    else (if t[0].tipo2.None? then 1 else 0) + SinSegundoTipo(t[1..])
  }

  /** Present and absent secondary types together account for every row. */
  lemma {:induction false} TipoDosCountsCoverTable(t: seq<Record>)
    ensures DosTipos(t) + SinSegundoTipo(t) == |t|
  {
    if t != [] {
      TipoDosCountsCoverTable(t[1..]);
    }
  }

  // ---------------------------------------------------------------------
  // The script's statistics over the whole table
  // ---------------------------------------------------------------------

  /** moda_Ataques = df["Ataque"].mode()[0]; None where pandas raises (empty table). */
  function ModaAtaques(t: seq<Record>): (r: Option<int>)
    ensures r.Some? <==> |t| > 0
    ensures r.Some? ==> exists i :: 0 <= i < |t| && t[i].ataque == r.value
    ensures r.Some? ==> forall v :: Freq(ColumnOf(t, Ataque), v) <= Freq(ColumnOf(t, Ataque), r.value)
    ensures r.Some? ==> forall v ::
      Freq(ColumnOf(t, Ataque), v) == Freq(ColumnOf(t, Ataque), r.value) ==> r.value <= v
  {
    if |t| == 0 then None else Some(Mode(ColumnOf(t, Ataque)))
  }

  /** promedio_Ataques before rounding; None where pandas gives NaN (empty table). */
  function PromedioAtaques(t: seq<Record>): (r: Option<real>)
    ensures r.Some? <==> |t| > 0
    ensures r.Some? ==> r.value * (|t| as real) == Sum(ColumnOf(t, Ataque)) as real
  {
    if |t| == 0 then None else Some(Mean(ColumnOf(t, Ataque)))
  }

  /** pokemon_defensa_alta; None where idxmax raises (empty table). */
  function PokemonDefensaAlta(t: seq<Record>): (r: Option<string>)
    ensures r.Some? <==> |t| > 0
    ensures r.Some? ==> exists k :: IsFirstMax(ColumnOf(t, Defensa), k) && r.value == t[k].nombre
  {
    if |t| == 0 then None
    else
      var k := ArgMax(ColumnOf(t, Defensa));
      Some(t[k].nombre)
  }

  /** pokemon_menor_velocidad; None where idxmin raises (empty table). */
  function PokemonMenorVelocidad(t: seq<Record>): (r: Option<string>)
    ensures r.Some? <==> |t| > 0
    ensures r.Some? ==> exists k :: IsFirstMin(ColumnOf(t, Velocidad), k) && r.value == t[k].nombre
  {
    if |t| == 0 then None
    else
      var k := ArgMin(ColumnOf(t, Velocidad));
      Some(t[k].nombre)
  }

  /** rango_PS = max(PS) - min(PS); None where pandas gives NaN (empty table). */
  function RangoPS(t: seq<Record>): (r: Option<int>)
    ensures r.Some? <==> |t| > 0
    ensures r.Some? ==> r.value >= 0
    ensures r.Some? ==> (r.value == 0 <==> forall i, j :: 0 <= i < |t| && 0 <= j < |t| ==> t[i].ps == t[j].ps)
  {
    if |t| == 0 then None
    else
      var col := ColumnOf(t, PS);
      assert forall i :: 0 <= i < |t| ==> col[i] == t[i].ps;
      Some(Range(col))
  }

  /** Mode tie-break: the column [1, 1, 2, 2, 3] has mode 1. */
  lemma ModeTieBreakExample()
    ensures Mode([1, 1, 2, 2, 3]) == 1
  {
  }

  /** idxmax tie-break: the column [5, 5, 3] has its first maximum at row 0. */
  lemma ArgMaxTieBreakExample()
    ensures ArgMax([5, 5, 3]) == 0
  {
  }
}
