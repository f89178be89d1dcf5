/** The visual matrix editor: a size between 2 and 6, a size x size grid of
    coefficients and a right-hand side, edited cell by cell and serialised into
    the text the solver pages parse. */
module MatrixInput {
  import opened Numbers
  import opened TextFields

  /** A k x k grid of zeros. */
  function ZeroGrid(k: nat): (g: seq<seq<real>>)
    ensures |g| == k && forall i :: 0 <= i < k ==> |g[i]| == k
  {
    seq(k, i requires 0 <= i < k => seq(k, j requires 0 <= j < k => 0.0))
  }

  /** The k x k grid built from m: a cell that m has is copied, any other is 0. */
  function ResizeGrid(m: seq<seq<real>>, k: nat): (g: seq<seq<real>>)
    ensures |g| == k && forall i :: 0 <= i < k ==> |g[i]| == k
  {
    seq(k, i requires 0 <= i < k =>
      seq(k, j requires 0 <= j < k => if i < |m| && j < |m[i]| then m[i][j] else 0.0))
  }

  /** The length-k vector built from v, padded with 0. */
  function ResizeVector(v: seq<real>, k: nat): (r: seq<real>)
    ensures |r| == k
  {
    seq(k, i requires 0 <= i < k => if i < |v| then v[i] else 0.0)
  }

  /** m is an n x n grid. */
  predicate IsGrid(m: seq<seq<real>>, n: nat) {
    |m| == n && forall i :: 0 <= i < n ==> |m[i]| == n
  }

  /** Resizing an n x n grid to k x k keeps every cell with both indices below
      min(n, k) and makes every other cell 0; the vector likewise. */
  lemma ResizeKeepsAndPads(m: seq<seq<real>>, v: seq<real>, n: nat, k: nat)
    requires IsGrid(m, n) && |v| == n
    ensures forall i, j :: 0 <= i < k && 0 <= j < k ==>
      ResizeGrid(m, k)[i][j] == if i < n && j < n then m[i][j] else 0.0
    ensures forall i :: 0 <= i < k ==> ResizeVector(v, k)[i] == if i < n then v[i] else 0.0
  {
  }

  /** Growing and then shrinking back restores the grid and the vector. */
  lemma GrowThenShrink(m: seq<seq<real>>, v: seq<real>, n: nat, k: nat)
    requires IsGrid(m, n) && |v| == n && n <= k
    ensures ResizeGrid(ResizeGrid(m, k), n) == m
    ensures ResizeVector(ResizeVector(v, k), n) == v
  {
    var g := ResizeGrid(ResizeGrid(m, k), n);
    forall i | 0 <= i < n
      ensures g[i] == m[i]
    {
      assert |g[i]| == |m[i]|;
    }
  }

  /** `Number.parseFloat(value) || 0`: the parsed number, or 0 when parsing gave NaN. */
  function CellValue(parsed: Option<real>): real {
    match parsed
    case Some(v) => v
    case None => 0.0
  }

  /** The serialised matrix: rows of cells joined by ",", rows joined by "\n". */
  function MatrixText(cells: seq<seq<string>>): string
    requires |cells| >= 1 && forall i :: 0 <= i < |cells| ==> |cells[i]| >= 1
  {
    Join(seq(|cells|, i requires 0 <= i < |cells| => Join(cells[i], ',')), '\n')
  }

  /** The solvers' parse `text.split("\n").map((row) => row.split(","))`, up to
      the number conversion. */
  function ParseCells(text: string): seq<seq<string>> {
    var rows := Split(text, '\n');
    seq(|rows|, i requires 0 <= i < |rows| => Split(rows[i], ','))
  }

  /** Parsing the serialised matrix gives back every cell string, provided no
      cell contains either separator. */
  lemma MatrixTextRoundTrip(cells: seq<seq<string>>)
    requires |cells| >= 1 && forall i :: 0 <= i < |cells| ==> |cells[i]| >= 1
    requires forall i, j :: 0 <= i < |cells| && 0 <= j < |cells[i]| ==> ',' !in cells[i][j] && '\n' !in cells[i][j]
    ensures ParseCells(MatrixText(cells)) == cells
  {
    var rows := seq(|cells|, i requires 0 <= i < |cells| => Join(cells[i], ','));
    forall i | 0 <= i < |cells|
      ensures '\n' !in rows[i] && Split(rows[i], ',') == cells[i]
    {
      NotInJoin(cells[i], ',', '\n');
      SplitJoin(cells[i], ',');
    }
    SplitJoin(rows, '\n');
  }

  /** The editor's state. */
  class MatrixInputHelper {
    var size: int
    var matrix: seq<seq<real>>
    var vector: seq<real>

    /** The grid is size x size, the vector has size entries, and size is 2..6. */
    predicate Valid()
      reads this
    {
      2 <= size <= 6 && IsGrid(matrix, size) && |vector| == size
    }

    /** The editor opens at size 3 with every value 0. */
    constructor()
      ensures Valid()
      ensures size == 3 && matrix == ZeroGrid(3) && vector == ResizeVector([], 3)
    {
      size := 3;
      matrix := ZeroGrid(3);
      vector := ResizeVector([], 3);
    }

    /** updateSize: a size outside 2..6 is ignored; any other resizes the grid
        and the vector, keeping the cells they had and zero-filling the rest. */
    method UpdateSize(newSize: int)
      requires Valid()
      modifies this
      ensures Valid()
      ensures newSize < 2 || newSize > 6 ==> size == old(size) && matrix == old(matrix) && vector == old(vector)
      ensures 2 <= newSize <= 6 ==>
        && size == newSize
        && matrix == ResizeGrid(old(matrix), newSize)
        && vector == ResizeVector(old(vector), newSize)
    {
      if newSize < 2 || newSize > 6 {
        return;
      }
      size := newSize;
      matrix := ResizeGrid(matrix, newSize);
      vector := ResizeVector(vector, newSize);
    }

    /** updateMatrixValue: cell (i, j) takes the parsed value, 0 if it did not
        parse; nothing else changes. */
    method UpdateMatrixValue(i: nat, j: nat, parsed: Option<real>)
      requires Valid() && i < size && j < size
      modifies this
      ensures Valid()
      ensures size == old(size) && vector == old(vector)
      ensures matrix == old(matrix)[i := old(matrix)[i][j := CellValue(parsed)]]
    {
      matrix := matrix[i := matrix[i][j := CellValue(parsed)]];
    }

    /** updateVectorValue: entry i takes the parsed value, 0 if it did not
        parse; nothing else changes. */
    method UpdateVectorValue(i: nat, parsed: Option<real>)
      requires Valid() && i < size
      modifies this
      ensures Valid()
      ensures size == old(size) && matrix == old(matrix)
      ensures vector == old(vector)[i := CellValue(parsed)]
    {
      vector := vector[i := CellValue(parsed)];
    }

    /** generateMatrixStrings: the grid and the vector as text, each number
        printed by show (JavaScript's number-to-string conversion). When no
        printed number holds a separator, the solvers' parse of the two texts
        gives back size rows of size printed coefficients and the size printed
        vector entries. */
    method GenerateMatrixStrings(show: real -> string) returns (matrixText: string, vectorText: string)
      requires Valid()
      ensures matrixText == MatrixText(Printed(matrix, show))
      ensures vectorText == Join(PrintedVector(vector, show), ',')
      ensures (forall v :: FreeOfSeparators(show(v))) ==>
        var cells := ParseCells(matrixText);
        && |cells| == size
        && (forall i :: 0 <= i < size ==> |cells[i]| == size)
        && (forall i, j :: 0 <= i < size && 0 <= j < size ==> cells[i][j] == show(matrix[i][j]))
      ensures (forall v :: FreeOfSeparators(show(v))) ==>
        var texts := Split(vectorText, ',');
        && |texts| == size
        && (forall i :: 0 <= i < size ==> texts[i] == show(vector[i]))
    {
      matrixText := MatrixText(Printed(matrix, show));
      vectorText := Join(PrintedVector(vector, show), ',');
      if forall v :: FreeOfSeparators(show(v)) {
        GeneratedMatrixParsesBack(matrix, size, show);
        GeneratedVectorParsesBack(vector, show);
      }
    }
  }

  /** Every cell of the grid printed. */
  function Printed(m: seq<seq<real>>, show: real -> string): (cells: seq<seq<string>>)
    ensures |cells| == |m| && forall i :: 0 <= i < |m| ==> |cells[i]| == |m[i]|
  {
    seq(|m|, i requires 0 <= i < |m| => seq(|m[i]|, j requires 0 <= j < |m[i]| => show(m[i][j])))
  }

  /** The printed form of a number holds neither separator. */
  predicate FreeOfSeparators(t: string) {
    ',' !in t && '\n' !in t
  }

  /** Every entry of the vector printed. */
  function PrintedVector(v: seq<real>, show: real -> string): (texts: seq<string>)
    ensures |texts| == |v|
  {
    seq(|v|, i requires 0 <= i < |v| => show(v[i]))
  }

  /** The text the editor hands over parses back into size rows of size cells,
      each the printed coefficient, when the printing produces no separator. */
  lemma GeneratedMatrixParsesBack(m: seq<seq<real>>, n: nat, show: real -> string)
    requires IsGrid(m, n) && 2 <= n
    requires forall v :: FreeOfSeparators(show(v))
    ensures var cells := ParseCells(MatrixText(Printed(m, show)));
      && |cells| == n
      && (forall i :: 0 <= i < n ==> |cells[i]| == n)
      && (forall i, j :: 0 <= i < n && 0 <= j < n ==> cells[i][j] == show(m[i][j]))
  {
    var cells := Printed(m, show);
    forall i, j | 0 <= i < |m| && 0 <= j < |m[i]|
      ensures ',' !in cells[i][j] && '\n' !in cells[i][j]
    {
      var y := m[i][j];
      assert FreeOfSeparators(show(y));
    }
    MatrixTextRoundTrip(cells);
  }

  /** The vector text splits back on "," into its printed entries. */
  lemma GeneratedVectorParsesBack(v: seq<real>, show: real -> string)
    requires |v| >= 1
    requires forall x :: FreeOfSeparators(show(x))
    ensures Split(Join(PrintedVector(v, show), ','), ',') == PrintedVector(v, show)
  {
    var texts := PrintedVector(v, show);
    forall k | 0 <= k < |v|
      ensures ',' !in texts[k]
    {
      var y := v[k];
      assert FreeOfSeparators(show(y));
    }
    SplitJoin(texts, ',');
  }
}
