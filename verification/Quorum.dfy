/** The size x size grid of a2/maekawa_linux.c: process a sits in row a/size, column
    a%size, and its quorum is its row plus its column. */
module Quorum {
  predicate InQuorum(n: nat, a: int, b: int)
    requires n > 0
  {
    a / n == b / n || a % n == b % n
  }

  /** The quorum of p below k, in row-major order. */
  function QList(n: nat, p: nat, k: nat): (q: seq<int>)
    requires n > 0
    ensures forall i :: 0 <= i < |q| ==> 0 <= q[i] < k && InQuorum(n, p, q[i])
    ensures forall i, j :: 0 <= i < j < |q| ==> q[i] < q[j]
    ensures forall b :: 0 <= b < k && InQuorum(n, p, b) ==> b in q
  {
    if k == 0 then []
    else if InQuorum(n, p, k - 1) then QList(n, p, k - 1) + [k - 1]
    else QList(n, p, k - 1)
  }

  function Procs(n: nat): nat {
    n * n
  }

  /** The requesters of arbiter p, which are also the arbiters of requester p. */
  function Members(n: nat, p: nat): (q: seq<int>)
    requires n > 0
    ensures forall i :: 0 <= i < |q| ==> 0 <= q[i] < Procs(n) && InQuorum(n, p, q[i])
    ensures forall i, j :: 0 <= i < j < |q| ==> q[i] < q[j]
    ensures forall b :: 0 <= b < Procs(n) && InQuorum(n, p, b) ==> b in q
  {
    QList(n, p, Procs(n))
  }

  lemma MulMono(a: int, b: int, n: nat)
    requires a <= b
    ensures a * n <= b * n
  {
  }

  lemma RowCol(n: nat, x: nat, y: nat)
    requires y < n
    ensures (x * n + y) / n == x && (x * n + y) % n == y
  {
    var a := x * n + y;
    var d := a / n;
    assert a == d * n + a % n;
    if x < d {
      MulMono(x + 1, d, n);
    }
    if d < x {
      MulMono(d + 1, x, n);
    }
  }

  /** The row-major number of a cell, size*x + y. */
  function Cell(n: nat, x: nat, y: nat): nat {
    n * x + y
  }

  lemma CellSteps(n: nat, x: nat, y: nat)
    ensures Cell(n, x, y + 1) == Cell(n, x, y) + 1
    ensures Cell(n, x, n) == Cell(n, x + 1, 0)
    ensures Cell(n, 0, 0) == 0 && Cell(n, n, 0) == Procs(n)
  {
    assert n * (x + 1) == n * x + n;
  }

  lemma InQuorumAt(n: nat, i: nat, j: nat, x: nat, y: nat)
    requires i < n && j < n && y < n
    ensures InQuorum(n, Cell(n, i, j), Cell(n, x, y)) <==> i == x || j == y
  {
    RowCol(n, i, j);
    RowCol(n, x, y);
    assert n * i == i * n && n * x == x * n;
  }

  /** How many of the quorum of (i, j) come before (x, y). */
  lemma {:induction false} CountTo(n: nat, i: nat, j: nat, x: nat, y: nat)
    requires i < n && j < n && y < n
    ensures |QList(n, Cell(n, i, j), Cell(n, x, y))|
            == x + (if x > i then n - 1 else 0) + (if x == i then y else if y > j then 1 else 0)
    decreases x, y
  {
    hide InQuorum, Cell;
    if y > 0 {
      CountTo(n, i, j, x, y - 1);
      InQuorumAt(n, i, j, x, y - 1);
      CellSteps(n, x, y - 1);
    } else if x > 0 {
      CountTo(n, i, j, x - 1, n - 1);
      InQuorumAt(n, i, j, x - 1, n - 1);
      CellSteps(n, x - 1, n - 1);
    } else {
      CellSteps(n, 0, 0);
    }
  }

  lemma MembersCount(n: nat, p: nat)
    requires n > 0 && p < Procs(n)
    ensures |Members(n, p)| == 2 * n - 1
  {
    InGrid(n, p);
    hide InQuorum, Cell;
    CountTo(n, p / n, p % n, n, 0);
    CellSteps(n, n, 0);
  }

  lemma InGrid(n: nat, p: nat)
    requires n > 0 && p < Procs(n)
    ensures p / n < n && p % n < n && p == Cell(n, p / n, p % n)
  {
    var d := p / n;
    assert p == d * n + p % n;
    if n <= d {
      MulMono(n, d, n);
    }
  }

  lemma CrossingPoint(n: nat, i: nat, j: nat, k: nat, l: nat)
    requires i < n && j < n && k < n && l < n
    ensures Cell(n, i, l) < Procs(n)
    ensures InQuorum(n, Cell(n, i, l), Cell(n, i, j)) && InQuorum(n, Cell(n, i, l), Cell(n, k, l))
  {
    hide InQuorum;
    InQuorumAt(n, i, l, i, j);
    InQuorumAt(n, i, l, k, l);
    MulMono(i + 1, n, n);
  }

  /** Any two quorums meet, at p's row and r's column. */
  lemma QuorumsMeet(n: nat, p: nat, r: nat) returns (a: nat)
    requires n > 0 && p < Procs(n) && r < Procs(n)
    ensures a < Procs(n) && InQuorum(n, a, p) && InQuorum(n, a, r)
  {
    hide InQuorum, Cell, Procs;
    InGrid(n, p);
    InGrid(n, r);
    CrossingPoint(n, p / n, p % n, r / n, r % n);
    a := Cell(n, p / n, r % n);
  }
}
