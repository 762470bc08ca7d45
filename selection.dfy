/**
 * The filtered and projected view of the table by primary type
 * (tipo_Fuego: rows of type "Fuego", columns Nombre, Tipo 1, Ataque, Velocidad).
 */
module Selection {
  import opened Table

  /** A row restricted to the columns Nombre, Tipo 1, Ataque, Velocidad. */
  datatype Projected = Projected(nombre: string, tipo1: string, ataque: nat, velocidad: nat)

  const FUEGO: string := "Fuego"

  function Project(r: Record): Projected
  {
    Projected(r.nombre, r.tipo1, r.ataque, r.velocidad)
  }

  /** Projects every row, keeping the order. */
  function ProjectAll(m: seq<Record>): seq<Projected>
  {
    if m == [] then [] else [Project(m[0])] + ProjectAll(m[1..])
  }

  lemma {:induction false} ProjectAllAppend(a: seq<Record>, b: seq<Record>)
    ensures ProjectAll(a + b) == ProjectAll(a) + ProjectAll(b)
  {
    if a == [] {
      assert a + b == b;
    } else {
      assert (a + b)[0] == a[0];
      assert (a + b)[1..] == a[1..] + b;
      ProjectAllAppend(a[1..], b);
    }
  }

  lemma {:induction false} ProjectAllMembers(m: seq<Record>, p: Projected)
    ensures p in ProjectAll(m) <==> exists r :: r in m && Project(r) == p
  {
    if m != [] {
      ProjectAllMembers(m[1..], p);
      assert forall r :: r in m <==> r == m[0] || r in m[1..];
    }
  }

  /** df.loc[df["Tipo 1"] == k, ["Nombre", "Tipo 1", "Ataque", "Velocidad"]] */
  function SelectByTipo(t: seq<Record>, k: string): seq<Projected>
  {
    ProjectAll(Members(t, k))
  }

  /** tipo_Fuego */
  function TipoFuego(t: seq<Record>): seq<Projected>
  {
    SelectByTipo(t, FUEGO)
  }

  /** The selection of consecutive parts of the table is concatenated in order. */
  lemma SelectionAppend(a: seq<Record>, b: seq<Record>, k: string)
    ensures SelectByTipo(a + b, k) == SelectByTipo(a, k) + SelectByTipo(b, k)
  {
    MembersAppend(a, b, k);
    ProjectAllAppend(Members(a, k), Members(b, k));
  }

  /** A single row contributes its projection exactly when its type matches. */
  lemma SelectionOfRow(r: Record, k: string)
    ensures SelectByTipo([r], k) == if r.tipo1 == k then [Project(r)] else []
  {
    MembersOfRow(r, k);
    assert ProjectAll([r]) == [Project(r)] by {
      assert [r][1..] == [];
    }
  }

  /** A projected row is selected iff some row of that type projects to it. */
  lemma SelectionMembers(t: seq<Record>, k: string, p: Projected)
    ensures p in SelectByTipo(t, k) <==>
      exists i :: 0 <= i < |t| && t[i].tipo1 == k && Project(t[i]) == p
  {
    var m := Members(t, k);
    ProjectAllMembers(m, p);
    if p in SelectByTipo(t, k) {
      var r :| r in m && Project(r) == p;
      var i :| 0 <= i < |t| && t[i] == r;
    }
    if exists i :: 0 <= i < |t| && t[i].tipo1 == k && Project(t[i]) == p {
      var i :| 0 <= i < |t| && t[i].tipo1 == k && Project(t[i]) == p;
      assert t[i] in m;
    }
  }

  /** No row of the type gives an empty selection, not an error. */
  lemma SelectionEmpty(t: seq<Record>, k: string)
    ensures SelectByTipo(t, k) == [] <==> forall i :: 0 <= i < |t| ==> t[i].tipo1 != k
  {
  }

  /** The Fuego view holds one projected row per Fuego row of the table. */
  lemma TipoFuegoSpec(t: seq<Record>)
    ensures forall p :: p in TipoFuego(t) <==>
      exists i :: 0 <= i < |t| && t[i].tipo1 == FUEGO && Project(t[i]) == p
    ensures forall p :: p in TipoFuego(t) ==> p.tipo1 == FUEGO
    ensures TipoFuego(t) == [] <==> forall i :: 0 <= i < |t| ==> t[i].tipo1 != FUEGO
  {
    forall p {
      SelectionMembers(t, FUEGO, p);
    }
    SelectionEmpty(t, FUEGO);
  }
}
