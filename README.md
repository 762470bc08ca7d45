# Pokémon first-generation analysis: a verified model of the summarisation pipeline

`analisis_pokemon.py` loads a table of first-generation Pokémon and prints a
series of summaries. Each row has a name (Nombre), a primary type (Tipo 1),
an optional secondary type (Tipo 2) and four non-negative integer stats
(PS, Ataque, Defensa, Velocidad). Under the printing and plotting sits a
deterministic pipeline over the table. This project models it in Dafny as
pure functions over `seq<Record>`, with lemmas about what each stage
computes:

- **Selection** (`selection.dfy`): the rows of type "Fuego", projected to
  Nombre, Tipo 1, Ataque and Velocidad, in table order.
- **Descriptive statistics** (`stats.dfy`):
  - the mode of Ataque, which is the smallest of the most frequent values;
  - `idxmax` of Defensa and `idxmin` of Velocidad, which pick the first
    occurrence;
  - the exact mean of Ataque;
  - the number of rows with a Tipo 2;
  - the PS range.
- **Derived column** (`power.dfy`): "Poder Total" is the sum of the four
  stats. The table is sorted on it in descending order and its first five
  rows are kept.
- **Group-by on Tipo 1** (`groups.dfy`, `stringorder.dfy`):
  - the partition of the table into groups, with keys sorted as pandas
    sorts them (Python string order);
  - per-type largest and smallest PS, each with the name of the first row
    that has it;
  - the ranking of types by exact mean Velocidad, Ataque and Defensa, with
    its first entry and its top 3.
- **Shared pieces**: `table.dfy` holds the record type, columns and the row
  filter by type. `sorting.dfy` holds a descending sort by a key and
  `head(n)`.

A pandas operation that raises on an empty table (`mode()[0]`, `idxmax`,
`idxmin`, `index[0]`) returns `None` in the model. So does one that gives
NaN there (`max() - min()`, `mean()`). Means are exact rationals (`real`)
formed from integer totals and row counts. `Groups.MediaCrossMultiply`
shows that comparing two means is the same as comparing the cross products
of totals and counts.

Two pandas defaults shape the contracts:
- `sort_values` uses its default algorithm, which is not stable. So the
  contracts promise a non-increasing permutation and nothing about the
  order of ties.
- `groupby` sorts its keys by default. So the groups appear in ascending
  key order.

## Model

| member | source | states |
|---|---|---|
| Table.Members | analisis_pokemon.py:20 | the rows kept for a type are exactly the table's rows of that type, and never more rows than the table has |
| Table.MembersAppend | analisis_pokemon.py:20 | filtering by type commutes with concatenation, so the rows keep their table order |
| Selection.SelectionAppend | analisis_pokemon.py:20 | the selection `SelectByTipo` of a concatenation is the concatenation of the selections, so row order is kept |
| Selection.SelectionOfRow | analisis_pokemon.py:20 | one row contributes its projection to `SelectByTipo` exactly when its Tipo 1 matches |
| Selection.SelectionMembers | analisis_pokemon.py:20 | a projected row is in the selection iff some row of that type projects to it |
| Selection.SelectionEmpty | analisis_pokemon.py:20 | the selection is empty, not an error, exactly when no row has the type |
| Selection.TipoFuegoSpec | analisis_pokemon.py:20 | tipo_Fuego (`TipoFuego`) holds exactly the projections of the Fuego rows, each with Tipo 1 "Fuego", and is empty iff there is no Fuego row |
| Stats.ArgMax | analisis_pokemon.py:37 | on a non-empty column, the index of a largest value with no earlier index holding that value |
| Stats.ArgMin | analisis_pokemon.py:41 | on a non-empty column, the index of a smallest value with no earlier index holding that value |
| Stats.PokemonDefensaAlta | analisis_pokemon.py:37-38 | absent exactly on an empty table; otherwise the name of the first row with the largest Defensa |
| Stats.PokemonMenorVelocidad | analisis_pokemon.py:41-42 | absent exactly on an empty table; otherwise the name of the first row with the smallest Velocidad |
| Stats.ArgMaxTieBreakExample | analisis_pokemon.py:37 | on the column [5, 5, 3] idxmax is the first row |
| Stats.Max | analisis_pokemon.py:52 | the maximum occurs in the column and bounds every value from above |
| Stats.Min | analisis_pokemon.py:52 | the minimum occurs in the column and bounds every value from below |
| Stats.Range | analisis_pokemon.py:52 | max minus min is never negative, and it is zero exactly when all values are equal |
| Stats.RangoPS | analisis_pokemon.py:52 | absent exactly on an empty table; otherwise a non-negative range of PS that is zero iff every row has the same PS |
| Stats.ModeAmong | analisis_pokemon.py:29 | the chosen candidate has the largest frequency among the candidates and is the smallest candidate with that frequency |
| Stats.Mode | analisis_pokemon.py:29 | the mode occurs in the column, no value is more frequent, and every value as frequent is at least as large |
| Stats.ModaAtaques | analisis_pokemon.py:29 | absent exactly on an empty table; otherwise an Ataque value of some row, of maximal frequency and smallest among those of maximal frequency |
| Stats.ModeTieBreakExample | analisis_pokemon.py:29 | on the column [1, 1, 2, 2, 3] the mode is 1 |
| Stats.SumBounds | analisis_pokemon.py:27 | a column whose values lie in [lo, hi] has a total in [n·lo, n·hi] |
| Stats.QuotientBounds | analisis_pokemon.py:27 | a total in [n·lo, n·hi] has its exact mean in [lo, hi] |
| Stats.MeanWithinRange | analisis_pokemon.py:27 | the exact mean (`Mean`) of a non-empty column lies between its minimum and its maximum |
| Stats.PromedioAtaques | analisis_pokemon.py:27 | absent exactly on an empty table; otherwise the exact mean of Ataque, whose product with the row count is the column total |
| Stats.DosTipos | analisis_pokemon.py:48 | the count of present Tipo 2 is at most the row count; it is 0 iff no row has a Tipo 2 and equals the row count iff every row has one |
| Stats.TipoDosCountsCoverTable | analisis_pokemon.py:48 | rows with Tipo 2 plus rows without it make up the whole table |
| Sorting.InsertDesc | analisis_pokemon.py:96 | inserting into a non-increasing sequence gives a non-increasing sequence with the element added to its multiset |
| Sorting.SortDesc | analisis_pokemon.py:96 | the descending sort is a permutation of its input with non-increasing keys |
| Sorting.FirstIsLargest | analisis_pokemon.py:113 | the first element of a non-increasing permutation of a sequence belongs to it and has a key at least every element's |
| Sorting.HeadDominates | analisis_pokemon.py:99 | on a non-increasing sequence, no element left out by head(n) has a larger key than any element kept |
| Power.ConPoderSpec | analisis_pokemon.py:95 | the derived view `ConPoder` has one entry per row, in order, and each entry's Poder Total is Ataque + Defensa + Velocidad + PS of its row |
| Power.OrdenadoSpec | analisis_pokemon.py:96 | df_ordenado (`Ordenado`) is a permutation of the scored table, has non-increasing Poder Total, and every row keeps its own Poder Total |
| Power.Top5Spec | analisis_pokemon.py:99 | the report `Top5` has min(5, n) rows, the first ones of df_ordenado, in non-increasing Poder Total, and no row left out has a larger Poder Total than any row shown |
| Power.TopOneExample | analisis_pokemon.py:95-99 | rows A (30, 10, 5, 20) and B (40, 50, 5, 10) score 65 and 105, and B heads the report |
| StringOrder.LessIrreflexive | analisis_pokemon.py:105 | no key sorts before itself |
| StringOrder.LessTransitive | analisis_pokemon.py:105 | the key order is transitive |
| StringOrder.LessTotal | analisis_pokemon.py:105 | any two different keys are ordered one way or the other |
| StringOrder.LessIsStrictTotalOrder | analisis_pokemon.py:105 | the order in which groupby sorts keys is a strict total order |
| Groups.InsertKey | analisis_pokemon.py:105 | adding a key to a strictly ascending key list keeps it strictly ascending and adds exactly that key |
| Groups.Keys | analisis_pokemon.py:105 | the group keys are strictly ascending and are exactly the primary types occurring in the table |
| Groups.KeysHaveMembers | analisis_pokemon.py:105 | every group key has at least one row |
| Groups.GroupBy | analisis_pokemon.py:105 | every group is non-empty |
| Groups.AllRowsOfCons | analisis_pokemon.py:105 | with distinct keys, a row added in front of the table lands in the groups exactly once if its type is a key, and not at all otherwise |
| Groups.AllRowsCover | analisis_pokemon.py:105 | with distinct keys covering every row, the groups together hold each row of the table exactly once |
| Groups.KeysDistinct | analisis_pokemon.py:105 | no two groups share a key |
| Groups.GroupMembership | analisis_pokemon.py:105 | a row lies in a group iff the group's key is its Tipo 1, and every row's Tipo 1 is the key of some group |
| Groups.GroupByPartition | analisis_pokemon.py:105 | the groups have distinct ascending keys and are non-empty; each holds its key's rows in table order; a row lies in a group iff the group's key is its Tipo 1; every row has a group; the groups together are the table as a multiset; there are no groups exactly when the table is empty |
| Groups.ExtremosDe | analisis_pokemon.py:116-123 | Min PS ≤ every PS of the group ≤ Max PS; each of the two names belongs to the first row of the group with that PS |
| Groups.PsExtremosPorTipo | analisis_pokemon.py:116-123 | ps_extremos has one summary per group, in key order, each being that group's extremes |
| Groups.MediaCrossMultiply | analisis_pokemon.py:110 | one mean is at least another iff total_a·count_b ≥ total_b·count_a |
| Groups.MeansBy | analisis_pokemon.py:105 | one entry per group in key order, with a positive row count and an exact mean equal to the group's column mean |
| Groups.RankByMeanSpec | analisis_pokemon.py:110 | the ranking `RankByMean`, and so velocidad_media (`VelocidadMedia`), is a permutation of the per-type means with non-increasing mean |
| Groups.RankFirstIsLargest | analisis_pokemon.py:110-113 | on a non-empty table, the first ranked type is a group key whose mean is at least every group's mean |
| Groups.TipoMayorVelocidad | analisis_pokemon.py:113 | absent exactly on an empty table; otherwise a type whose exact mean Velocidad is at least every type's |
| Groups.TopTresSpec | analisis_pokemon.py:132-136 | a top-3 list `TopTres`, and so `TopAtaque` (line 132) and `TopDefensa` (line 136), has min(3, #types) entries, the first ones of the ranking, with non-increasing means; each is some type's mean, and no type left out has a larger mean than any type shown |

## Left out

- Loading the CSV file (line 13) and every `print`: these are I/O. The table
  is an input `seq<Record>`. An empty Tipo 2 field, which `read_csv` reads as
  NaN, is `None`.
- The plots (lines 62-90 and 148-156): these are UI and calls into seaborn
  and matplotlib.
- Rounding to 1, 2 or 3 decimals (lines 27, 53, 140): this is display only.
  Means are exact.
- Median (lines 28 and 105), sample standard deviation (lines 53, 105 and
  143) and Pearson correlation (line 139): these are floating-point
  statistics. They include the average of the two middle values and the NaN
  of a one-row group.
- Floating-point rounding of the means: pandas compares float64 means. The
  model compares exact rationals, so two types whose means differ by less
  than the float error may rank differently.
- Order of ties: among rows with equal Poder Total, or types with equal
  means, the source fixes no order. The model's insertion sort picks one
  order. The contracts say nothing about it.
- The interpretive text (lines 161-165): it is not logic.
- Integer width: pandas stores the stats, Poder Total and the column totals
  as int64. The model uses unbounded integers (`PoderTotal`, `Sum`), so
  int64 wrap-around is not modelled. It cannot occur at the sizes of
  Pokémon stats.
- Groups.TopTresSpec, Groups.RankByMeanSpec: ataque_stats also carries
  median and std columns. Only the mean column is modelled, because the
  other two are floating point.
