/**
 * Grid geometry of the territory map: cells, squared distances, the nearest group
 * center (first index on ties), the cells a center claims in row-major scan order,
 * and the four orthogonal neighbours of a cell.
 */
module Grid {

  datatype Cell = Cell(x: int, y: int)

  predicate InBounds(c: Cell, width: int, height: int)
  {
    0 <= c.x < width && 0 <= c.y < height
  }

  /** Squared Euclidean distance; the square root is monotone, so comparing squared
      distances picks the same nearest center as comparing distances. */
  function SqDist(a: Cell, b: Cell): (d: nat)
    ensures d == 0 <==> a == b
  {
    (a.x - b.x) * (a.x - b.x) + (a.y - b.y) * (a.y - b.y)
  }

  /** The index of the nearest of the first n centers, the first such index on ties. */
  function NearestAmong(c: Cell, centers: seq<Cell>, n: nat): (i: nat)
    requires 0 < n <= |centers|
    ensures i < n
    ensures forall j :: 0 <= j < n ==> SqDist(c, centers[i]) <= SqDist(c, centers[j])
    ensures forall j :: 0 <= j < i ==> SqDist(c, centers[i]) < SqDist(c, centers[j])
  {
    if n == 1 then 0
    else
      var k := NearestAmong(c, centers, n - 1);
      if SqDist(c, centers[n - 1]) < SqDist(c, centers[k]) then n - 1 else k
  }

  /** The first index at which the distance to c is minimal (numpy's argmin). */
  function Nearest(c: Cell, centers: seq<Cell>): (i: nat)
    requires |centers| > 0
    ensures i < |centers|
    ensures forall j :: 0 <= j < |centers| ==> SqDist(c, centers[i]) <= SqDist(c, centers[j])
    ensures forall j :: 0 <= j < i ==> SqDist(c, centers[i]) < SqDist(c, centers[j])
  {
    NearestAmong(c, centers, |centers|)
  }

  /** The nearest-center index is determined by the two ensures of Nearest. */
  lemma NearestUnique(c: Cell, centers: seq<Cell>, i: nat)
    requires i < |centers|
    requires forall j :: 0 <= j < |centers| ==> SqDist(c, centers[i]) <= SqDist(c, centers[j])
    requires forall j :: 0 <= j < i ==> SqDist(c, centers[i]) < SqDist(c, centers[j])
    ensures Nearest(c, centers) == i
  {
    var k := Nearest(c, centers);
    assert !(k < i) && !(i < k);
  }

  /** A center whose position no other center shares is its own nearest center. */
  lemma DistinctCenterIsNearestToItself(centers: seq<Cell>, i: nat)
    requires i < |centers|
    requires forall j :: 0 <= j < |centers| && j != i ==> centers[j] != centers[i]
    ensures Nearest(centers[i], centers) == i
  {
    NearestUnique(centers[i], centers, i);
  }

  /** The cells (x, 0), ..., (x, y - 1) of row x claimed by center g, in scan order. */
  function RowClaim(centers: seq<Cell>, g: nat, x: int, y: nat): seq<Cell>
    requires |centers| > 0
  {
    if y == 0 then []
    else RowClaim(centers, g, x, y - 1) + (if Nearest(Cell(x, y - 1), centers) == g then [Cell(x, y - 1)] else [])
  }

  /** The cells of rows 0 .. x - 1 (each of the given height) claimed by center g, in
      row-major scan order. */
  function Claim(centers: seq<Cell>, g: nat, x: nat, height: nat): seq<Cell>
    requires |centers| > 0
  {
    if x == 0 then [] else Claim(centers, g, x - 1, height) + RowClaim(centers, g, x - 1, height)
  }

  lemma {:induction false} RowClaimMembers(centers: seq<Cell>, g: nat, x: int, y: nat, c: Cell)
    requires |centers| > 0
    ensures c in RowClaim(centers, g, x, y) <==> c.x == x && 0 <= c.y < y && Nearest(c, centers) == g
  {
    if y > 0 {
      var before := RowClaim(centers, g, x, y - 1);
      var last := Cell(x, y - 1);
      assert RowClaim(centers, g, x, y) == before + (if Nearest(last, centers) == g then [last] else []);
      RowClaimMembers(centers, g, x, y - 1, c);
    }
  }

  /** A center claims exactly the in-bounds cells it is nearest to. */
  lemma {:induction false} ClaimMembers(centers: seq<Cell>, g: nat, x: nat, height: nat, c: Cell)
    requires |centers| > 0
    ensures c in Claim(centers, g, x, height) <==> InBounds(c, x, height) && Nearest(c, centers) == g
  {
    if x > 0 {
      var before, row := Claim(centers, g, x - 1, height), RowClaim(centers, g, x - 1, height);
      assert Claim(centers, g, x, height) == before + row;
      ClaimMembers(centers, g, x - 1, height, c);
      RowClaimMembers(centers, g, x - 1, height, c);
      assert c in before + row <==> c in before || c in row;
    }
  }

  /** Every in-bounds cell is claimed by exactly one center: the claims partition the grid. */
  lemma ClaimsPartition(centers: seq<Cell>, width: nat, height: nat, c: Cell)
    requires |centers| > 0
    ensures InBounds(c, width, height) ==>
      forall g: nat :: c in Claim(centers, g, width, height) <==> g == Nearest(c, centers)
    ensures !InBounds(c, width, height) ==> forall g: nat :: c !in Claim(centers, g, width, height)
  {
    forall g: nat ensures c in Claim(centers, g, width, height) <==> InBounds(c, width, height) && g == Nearest(c, centers) {
      ClaimMembers(centers, g, width, height, c);
    }
  }

  /** A center that no other center shares claims at least its own cell. */
  lemma DistinctCenterClaimsItsCell(centers: seq<Cell>, i: nat, width: nat, height: nat)
    requires i < |centers| && InBounds(centers[i], width, height)
    requires forall j :: 0 <= j < |centers| && j != i ==> centers[j] != centers[i]
    ensures centers[i] in Claim(centers, i, width, height)
  {
    DistinctCenterIsNearestToItself(centers, i);
    ClaimMembers(centers, i, width, height, centers[i]);
  }

  /** The four orthogonal neighbours, in the order left, right, down, up along x then y. */
  function Neighbour(c: Cell, k: nat): Cell
    requires k < 4
  {
    if k == 0 then Cell(c.x - 1, c.y)
    else if k == 1 then Cell(c.x + 1, c.y)
    else if k == 2 then Cell(c.x, c.y - 1)
    else Cell(c.x, c.y + 1)
  }

  /** Orthogonal adjacency is symmetric. */
  lemma NeighbourSymmetric(c: Cell, k: nat)
    requires k < 4
    ensures Neighbour(Neighbour(c, k), Opposite(k)) == c
  {
  }

  function Opposite(k: nat): (k': nat)
    requires k < 4
    ensures k' < 4
  {
    if k == 0 then 1 else if k == 1 then 0 else if k == 2 then 3 else 2
  }

  /** Concatenation regroups freely. */
  lemma ConcatAssoc(a: seq<Cell>, b: seq<Cell>, c: seq<Cell>)
    ensures (a + b) + c == a + (b + c)
  {
  }
}
