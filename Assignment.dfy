/**
 * Which tools each of the eight copyists can reach, and how long they copy
 * and check (Engineers.java:42-48).
 *
 * Java's `/` rounds toward zero and its `%` takes the sign of the dividend,
 * while Dafny's `/` and `%` on `int` are Euclidean; `JavaDiv` and `JavaRem`
 * spell the Java operators out. They differ for copyist 0, whose eidograph
 * index is `(0 - 1) / 2`.
 */
module Assignment {

  /** The number of copyists and the number of tools of each kind. */
  const CopyistCount := 8
  const ToolCount := 4

  /** Java's integer division `a / b` for a positive divisor: the quotient rounded toward zero. */
  function JavaDiv(a: int, b: int): (q: int)
    requires b > 0
    ensures a >= 0 ==> 0 <= a - q * b < b
    ensures a < 0 ==> -b < a - q * b <= 0
  {
    if a >= 0 then a / b else -((-a) / b)
  }

  /** Java's remainder `a % b` for a positive divisor: it takes the sign of `a`. */
  function JavaRem(a: int, b: int): (r: int)
    requires b > 0
    ensures a >= 0 ==> 0 <= r < b
    ensures a < 0 ==> -b < r <= 0
  {
    if a >= 0 then a % b else -((-a) % b)
  }

  /** Java's quotient and remainder put the dividend back together. */
  lemma JavaDivision(a: int, b: int)
    requires b > 0
    ensures JavaDiv(a, b) * b + JavaRem(a, b) == a
  {
    if a < 0 {
      assert (-a) / b * b + (-a) % b == -a;
    }
  }

  /** The index of the pencil copyist `i` uses: `((i + 1) / 4) % 4`. */
  function PencilIndex(i: int): int {
    JavaRem(JavaDiv(i + 1, 4), 4)
  }

  /** The index of the eidograph copyist `i` uses: `(i - 1) / 2`. */
  function EidographIndex(i: int): int {
    JavaDiv(i - 1, 2)
  }

  /** The four duration bounds handed to a copyist, in milliseconds. */
  datatype Bounds = Bounds(minCopy: int, maxCopy: int, minCheck: int, maxCheck: int)

  /** Even-numbered copyists get one set of bounds, odd-numbered ones another. */
  function CopyistBounds(i: int): (b: Bounds)
    ensures b.minCopy == 30 && b.minCheck == 40
    ensures i % 2 == 0 ==> b.maxCopy == 60 && b.maxCheck == 100
    ensures i % 2 != 0 ==> b.maxCopy == 80 && b.maxCheck == 60
  {
    if i % 2 == 0 then Bounds(30, 60, 40, 100) else Bounds(30, 80, 40, 60)
  }

  /** For arguments that are not negative, the Java operators agree with Dafny's. */
  lemma JavaAgreesOnNatural(a: int, b: int)
    requires a >= 0 && b > 0
    ensures JavaDiv(a, b) == a / b && JavaRem(a, b) == a % b
  {
  }

  /** Copyist 0 reaches eidograph 0 because Java rounds `-1 / 2` toward zero; Euclidean division would give -1. */
  lemma FirstCopyistEidograph()
    ensures EidographIndex(0) == 0
    ensures (0 - 1) / 2 == -1
  {
  }

  /** Every copyist reaches a pencil and an eidograph that exist. */
  lemma IndicesInRange(i: int)
    requires 0 <= i < CopyistCount
    ensures 0 <= PencilIndex(i) < ToolCount
    ensures 0 <= EidographIndex(i) < ToolCount
  {
  }

  /** The assignment, copyist by copyist. */
  lemma AssignmentTable(i: int)
    requires 0 <= i < CopyistCount
    ensures PencilIndex(i) == [0, 0, 0, 1, 1, 1, 1, 2][i]
    ensures EidographIndex(i) == [0, 0, 0, 1, 1, 2, 2, 3][i]
  {
  }

  /** The two kinds of tool on the desk. */
  datatype Kind = Pencil | Eidograph

  /** The index of the tool of kind `k` that copyist `i` reaches. */
  function Reach(k: Kind, i: int): int {
    match k
    case Pencil => PencilIndex(i)
    case Eidograph => EidographIndex(i)
  }

  /** The tool of kind `k` each copyist reaches, by copyist number. */
  function Table(k: Kind): seq<int> {
    seq(CopyistCount, i => Reach(k, i))
  }

  /** How many of the first `n` entries of `table` are `t`. */
  function Count(table: seq<int>, t: int, n: nat): nat
    requires n <= |table|
  {
    if n == 0 then 0
    else Count(table, t, n - 1) + (if table[n - 1] == t then 1 else 0)
  }

  /** How many copyists reach tool `t` of kind `k`. */
  function Users(k: Kind, t: int): nat {
    Count(Table(k), t, CopyistCount)
  }

  /** The whole assignment as two tables indexed by copyist number. */
  lemma Tables()
    ensures Table(Pencil) == [0, 0, 0, 1, 1, 1, 1, 2]
    ensures Table(Eidograph) == [0, 0, 0, 1, 1, 2, 2, 3]
  {
    forall i | 0 <= i < CopyistCount
      ensures Table(Pencil)[i] == [0, 0, 0, 1, 1, 1, 1, 2][i]
      ensures Table(Eidograph)[i] == [0, 0, 0, 1, 1, 2, 2, 3][i]
    {
      AssignmentTable(i);
    }
  }

  /** Counting in the two tables. */
  lemma PencilCounts()
    ensures var s := [0, 0, 0, 1, 1, 1, 1, 2];
      Count(s, 0, 8) == 3 && Count(s, 1, 8) == 4 && Count(s, 2, 8) == 1 && Count(s, 3, 8) == 0
  {
  }

  lemma EidographCounts()
    ensures var s := [0, 0, 0, 1, 1, 2, 2, 3];
      Count(s, 0, 8) == 3 && Count(s, 1, 8) == 2 && Count(s, 2, 8) == 2 && Count(s, 3, 8) == 1
  {
  }

  /**
   * The tools are not shared two by two: the pencils serve 3, 4, 1 and 0
   * copyists, the eidographs 3, 2, 2 and 1.
   */
  lemma Sharing()
    ensures Users(Pencil, 0) == 3 && Users(Pencil, 1) == 4 && Users(Pencil, 2) == 1 && Users(Pencil, 3) == 0
    ensures Users(Eidograph, 0) == 3 && Users(Eidograph, 1) == 2 && Users(Eidograph, 2) == 2 && Users(Eidograph, 3) == 1
  {
    Tables();
    PencilCounts();
    EidographCounts();
  }
}
