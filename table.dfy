/**
 * The table read from pokemon_primera_gen.csv: one Record per row, in file
 * order, with the fixed schema the analysis relies on.
 */
module Table {

  datatype Option<+T> = None | Some(value: T)

  /** One creature: name, primary type, optional secondary type, four stats. */
  datatype Record = Record(
    nombre: string,
    tipo1: string,
    tipo2: Option<string>,
    ps: nat,
    ataque: nat,
    defensa: nat,
    velocidad: nat)

  /** The numeric columns of the table. */
  datatype Column = PS | Ataque | Defensa | Velocidad

  function Value(r: Record, c: Column): nat
  {
    match c
    case PS => r.ps
    case Ataque => r.ataque
    case Defensa => r.defensa
    case Velocidad => r.velocidad
  }

  /** df[c]: the column c, row by row. */
  function ColumnOf(t: seq<Record>, c: Column): (col: seq<nat>)
    ensures |col| == |t|
    ensures forall i :: 0 <= i < |t| ==> col[i] == Value(t[i], c)
  {
    seq(|t|, i requires 0 <= i < |t| => Value(t[i], c))
  }

  /**
   * df.loc[df["Tipo 1"] == k]: the rows whose primary type is k,
   * keeping the table's row order.
   */
  function Members(t: seq<Record>, k: string): (m: seq<Record>)
    ensures |m| <= |t|
    ensures forall r :: r in m <==> r in t && r.tipo1 == k
  {
    if t == [] then []
    else (if t[0].tipo1 == k then [t[0]] else []) + Members(t[1..], k)
  }

  /** Filtering commutes with concatenation, so row order is preserved. */
  lemma {:induction false} MembersAppend(a: seq<Record>, b: seq<Record>, k: string)
    ensures Members(a + b, k) == Members(a, k) + Members(b, k)
  {
    if a != [] {
      assert (a + b)[0] == a[0];
      assert (a + b)[1..] == a[1..] + b;
      MembersAppend(a[1..], b, k);
    } else {
      assert a + b == b;
    }
  }

  /** A single row is kept exactly when its primary type matches. */
  lemma MembersOfRow(r: Record, k: string)
    ensures Members([r], k) == if r.tipo1 == k then [r] else []
  {
  }
}
