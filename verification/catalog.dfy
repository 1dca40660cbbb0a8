/** The static table of piece definitions: shape, cell count, tier, draw weight and colour of each piece. */
module Catalog {
  import opened BoardGrid

  /** Difficulty tier; informational only, nothing in the rules reads it. */
  datatype Tier = Easy | Medium | Hard

  /** One catalog entry together with the key it is listed under. */
  datatype PieceDef = PieceDef(key: string, matrix: Matrix, size: nat, tier: Tier, weight: nat, color: string)

  /** The 25 definitions, in declaration order (the order a `for ... in` over the table visits them). */
  function Definitions(): (defs: seq<PieceDef>)
    ensures |defs| == 25
  {
    SmallPieces() + Tetrominoes() + Pentominoes() + LargePieces()
  }

  /** The monomino, the dominoes and the trominoes. */
  function SmallPieces(): seq<PieceDef>
  {
    [Mono(), DominoH(), DominoV(), TrominoI(), TrominoL()]
  }

  /** The seven tetrominoes. */
  function Tetrominoes(): seq<PieceDef>
  {
    [TetroO(), TetroT(), TetroL(), TetroJ(), TetroS(), TetroZ(), TetroI()]
  }

  /** The twelve pentominoes. */
  function Pentominoes(): seq<PieceDef>
  {
    [PentoI(), PentoP(), PentoF(), PentoL(), PentoN(), PentoT(), PentoU(), PentoV(), PentoW(), PentoX(), PentoY(), PentoZ()]
  }

  /** The 3x3 square. */
  function LargePieces(): seq<PieceDef>
  {
    [Square3x3()]
  }

  // The entries, one function each, so that each one can be checked on its own.

  // Monomino
  function Mono(): PieceDef { PieceDef("mono", [[1]], 1, Easy, 15, "blue") }
  // Dominoes
  function DominoH(): PieceDef { PieceDef("domino_h", [[1, 1]], 2, Easy, 10, "green") }
  function DominoV(): PieceDef { PieceDef("domino_v", [[1], [1]], 2, Easy, 10, "green") }
  // Trominoes
  function TrominoI(): PieceDef { PieceDef("tromino_i", [[1, 1, 1]], 3, Easy, 8, "cyan") }
  function TrominoL(): PieceDef { PieceDef("tromino_l", [[1, 0], [1, 1]], 3, Medium, 7, "yellow") }
  // Tetrominoes
  function TetroO(): PieceDef { PieceDef("tetro_o", [[1, 1], [1, 1]], 4, Easy, 8, "yellow") }
  function TetroT(): PieceDef { PieceDef("tetro_t", [[0, 1, 0], [1, 1, 1]], 4, Medium, 5, "purple") }
  function TetroL(): PieceDef { PieceDef("tetro_l", [[0, 0, 1], [1, 1, 1]], 4, Medium, 5, "orange") }
  function TetroJ(): PieceDef { PieceDef("tetro_j", [[1, 0, 0], [1, 1, 1]], 4, Medium, 5, "blue") }
  function TetroS(): PieceDef { PieceDef("tetro_s", [[0, 1, 1], [1, 1, 0]], 4, Hard, 3, "red") }
  function TetroZ(): PieceDef { PieceDef("tetro_z", [[1, 1, 0], [0, 1, 1]], 4, Hard, 3, "magenta") }
  function TetroI(): PieceDef { PieceDef("tetro_i", [[1, 1, 1, 1]], 4, Easy, 6, "cyan") }
  // Pentominoes
  function PentoI(): PieceDef { PieceDef("pento_i", [[1, 1, 1, 1, 1]], 5, Medium, 4, "cyan") }
  function PentoP(): PieceDef { PieceDef("pento_p", [[1, 1], [1, 1], [1, 0]], 5, Hard, 2, "pink") }
  function PentoF(): PieceDef { PieceDef("pento_f", [[0, 1, 1], [1, 1, 0], [0, 1, 0]], 5, Hard, 2, "green") }
  function PentoL(): PieceDef { PieceDef("pento_l", [[1, 0], [1, 0], [1, 0], [1, 1]], 5, Medium, 3, "orange") }
  function PentoN(): PieceDef { PieceDef("pento_n", [[0, 1], [1, 1], [1, 0], [1, 0]], 5, Hard, 2, "red") }
  function PentoT(): PieceDef { PieceDef("pento_t", [[1, 1, 1], [0, 1, 0], [0, 1, 0]], 5, Medium, 3, "purple") }
  function PentoU(): PieceDef { PieceDef("pento_u", [[1, 0, 1], [1, 1, 1]], 5, Medium, 3, "blue") }
  function PentoV(): PieceDef { PieceDef("pento_v", [[1, 0, 0], [1, 0, 0], [1, 1, 1]], 5, Medium, 3, "yellow") }
  function PentoW(): PieceDef { PieceDef("pento_w", [[1, 0, 0], [1, 1, 0], [0, 1, 1]], 5, Hard, 2, "cyan") }
  function PentoX(): PieceDef { PieceDef("pento_x", [[0, 1, 0], [1, 1, 1], [0, 1, 0]], 5, Easy, 5, "magenta") }
  function PentoY(): PieceDef { PieceDef("pento_y", [[0, 1], [1, 1], [0, 1], [0, 1]], 5, Medium, 3, "pink") }
  function PentoZ(): PieceDef { PieceDef("pento_z", [[1, 1, 0], [0, 1, 0], [0, 1, 1]], 5, Hard, 2, "red") }
  // Large square
  function Square3x3(): PieceDef { PieceDef("square_3x3", [[1, 1, 1], [1, 1, 1], [1, 1, 1]], 9, Hard, 1, "red") }

  /** Number of cells equal to 1 in one row. */
  function RowOnes(row: seq<int>): nat
  {
    if row == [] then 0 else (if row[0] == 1 then 1 else 0) + RowOnes(row[1..])
  }

  /** Number of cells equal to 1 in a shape. */
  function CountOnes(m: Matrix): nat
  {
    if m == [] then 0 else RowOnes(m[0]) + CountOnes(m[1..])
  }

  /** The first cell of every row (0 for an empty row). */
  function FirstColumn(m: Matrix): (col: seq<int>)
    ensures |col| == |m|
    ensures forall j :: 0 <= j < |m| ==> col[j] == if |m[j]| > 0 then m[j][0] else 0
  {
    if m == [] then [] else [if |m[0]| > 0 then m[0][0] else 0] + FirstColumn(m[1..])
  }

  /** At least one row, all rows of the same positive length. */
  predicate Rectangular(m: Matrix)
  {
    |m| > 0 && |m[0]| > 0 && forall j :: 0 <= j < |m| ==> |m[j]| == |m[0]|
  }

  /** The shape touches the top and the left edge of its bounding box. */
  predicate Anchored(m: Matrix)
  {
    |m| > 0 && 1 in m[0] && 1 in FirstColumn(m)
  }

  /** What every catalog entry satisfies. */
  predicate WellFormed(d: PieceDef)
  {
    && Rectangular(d.matrix)
    && IsBinary(d.matrix)
    && Anchored(d.matrix)
    && d.weight > 0
    && d.size == CountOnes(d.matrix)
  }

  predicate DistinctKeys(defs: seq<PieceDef>)
  {
    forall i, j :: 0 <= i < j < |defs| ==> defs[i].key != defs[j].key
  }

  // Each entry is checked on its own: one proof over all 25 literals is too large for the solver.

  lemma MonoWellFormed() ensures WellFormed(Mono()) {}
  lemma DominoHWellFormed() ensures WellFormed(DominoH()) {}
  lemma DominoVWellFormed() ensures WellFormed(DominoV()) {}
  lemma TrominoIWellFormed() ensures WellFormed(TrominoI()) {}
  lemma TrominoLWellFormed() ensures WellFormed(TrominoL()) {}
  lemma TetroOWellFormed() ensures WellFormed(TetroO()) {}
  lemma TetroTWellFormed() ensures WellFormed(TetroT()) {}
  lemma TetroLWellFormed() ensures WellFormed(TetroL()) {}
  lemma TetroJWellFormed() ensures WellFormed(TetroJ()) {}
  lemma TetroSWellFormed() ensures WellFormed(TetroS()) {}
  lemma TetroZWellFormed() ensures WellFormed(TetroZ()) {}
  lemma TetroIWellFormed() ensures WellFormed(TetroI()) {}
  lemma PentoIWellFormed() ensures WellFormed(PentoI()) {}
  lemma PentoPWellFormed() ensures WellFormed(PentoP()) {}
  lemma PentoFWellFormed() ensures WellFormed(PentoF()) {}
  lemma PentoLWellFormed() ensures WellFormed(PentoL()) {}
  lemma PentoNWellFormed() ensures WellFormed(PentoN()) {}
  lemma PentoTWellFormed() ensures WellFormed(PentoT()) {}
  lemma PentoUWellFormed() ensures WellFormed(PentoU()) {}
  lemma PentoVWellFormed() ensures WellFormed(PentoV()) {}
  lemma PentoWWellFormed() ensures WellFormed(PentoW()) {}
  lemma PentoXWellFormed() ensures WellFormed(PentoX()) {}
  lemma PentoYWellFormed() ensures WellFormed(PentoY()) {}
  lemma PentoZWellFormed() ensures WellFormed(PentoZ()) {}
  lemma Square3x3WellFormed() ensures WellFormed(Square3x3()) {}

  /** The table's keys, in declaration order. */
  function CatalogKeys(): seq<string>
  {
    ["mono", "domino_h", "domino_v", "tromino_i", "tromino_l", "tetro_o",
     "tetro_t", "tetro_l", "tetro_j", "tetro_s", "tetro_z", "tetro_i",
     "pento_i", "pento_p", "pento_f", "pento_l", "pento_n", "pento_t",
     "pento_u", "pento_v", "pento_w", "pento_x", "pento_y", "pento_z",
     "square_3x3"]
  }

  /** The entries carry the listed keys. */
  lemma KeysListed()
    ensures forall i :: 0 <= i < 25 ==> Definitions()[i].key == CatalogKeys()[i]
  {
  }

  /** The listed keys are pairwise different. */
  lemma KeyListDistinct()
    ensures forall i, j :: 0 <= i < j < 25 ==> CatalogKeys()[i] != CatalogKeys()[j]
  {
  }

  /** No two catalog entries share a key. */
  lemma CatalogKeysDistinct()
    ensures DistinctKeys(Definitions())
  {
    KeysListed();
    KeyListDistinct();
  }

  lemma SmallPiecesWellFormed()
    ensures forall d :: d in SmallPieces() ==> WellFormed(d)
  {
    forall d | d in SmallPieces()
      ensures WellFormed(d)
    {
      if d == Mono() { MonoWellFormed(); }
      else if d == DominoH() { DominoHWellFormed(); }
      else if d == DominoV() { DominoVWellFormed(); }
      else if d == TrominoI() { TrominoIWellFormed(); }
      else { TrominoLWellFormed(); }
    }
  }

  lemma TetrominoesWellFormed()
    ensures forall d :: d in Tetrominoes() ==> WellFormed(d)
  {
    forall d | d in Tetrominoes()
      ensures WellFormed(d)
    {
      if d == TetroO() { TetroOWellFormed(); }
      else if d == TetroT() { TetroTWellFormed(); }
      else if d == TetroL() { TetroLWellFormed(); }
      else if d == TetroJ() { TetroJWellFormed(); }
      else if d == TetroS() { TetroSWellFormed(); }
      else if d == TetroZ() { TetroZWellFormed(); }
      else { TetroIWellFormed(); }
    }
  }

  lemma PentominoesWellFormed()
    ensures forall d :: d in Pentominoes() ==> WellFormed(d)
  {
    forall d | d in Pentominoes()
      ensures WellFormed(d)
    {
      if d == PentoI() { PentoIWellFormed(); }
      else if d == PentoP() { PentoPWellFormed(); }
      else if d == PentoF() { PentoFWellFormed(); }
      else if d == PentoL() { PentoLWellFormed(); }
      else if d == PentoN() { PentoNWellFormed(); }
      else if d == PentoT() { PentoTWellFormed(); }
      else if d == PentoU() { PentoUWellFormed(); }
      else if d == PentoV() { PentoVWellFormed(); }
      else if d == PentoW() { PentoWWellFormed(); }
      else if d == PentoX() { PentoXWellFormed(); }
      else if d == PentoY() { PentoYWellFormed(); }
      else { PentoZWellFormed(); }
    }
  }

  lemma LargePiecesWellFormed()
    ensures forall d :: d in LargePieces() ==> WellFormed(d)
  {
    Square3x3WellFormed();
  }

  /** Every catalog entry is a rectangular 0/1 shape touching the top and left edges of its box, with a
      positive weight and a size equal to its number of occupied cells. */
  lemma CatalogWellFormed()
    ensures forall d :: d in Definitions() ==> WellFormed(d)
  {
    SmallPiecesWellFormed();
    TetrominoesWellFormed();
    PentominoesWellFormed();
    LargePiecesWellFormed();
  }
}
