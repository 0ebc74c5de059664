/** The small functions of the Python language notes: a three-way comparison, generators
    (even numbers, a row-major walk of a grid, the primes by trial division), a mutable
    default argument, and a function that changes the list it is given. */
module LanguageNotes {

  /** `greater_less_equal_5(answer)`. */
  function GreaterLessEqual5(answer: int): (r: int)
    ensures r == 1 <==> answer > 5
    ensures r == -1 <==> answer < 5
    ensures r == 0 <==> answer == 5
  {
    if answer > 5 then 1 else if answer < 5 then -1 else 0
  }

  /** Reflecting the answer about 5 flips the sign of the comparison. */
  lemma GreaterLessEqual5Mirror(answer: int)
    ensures GreaterLessEqual5(10 - answer) == -GreaterLessEqual5(answer)
  {
  }

  // ---- evens

  predicate IsEven(n: int) {
    n % 2 == 0
  }

  /** The even elements of the stream, in their order. */
  function EvensOf(stream: seq<int>): seq<int> {
    if stream == [] then []
    else EvensOf(stream[..|stream| - 1]) + if IsEven(stream[|stream| - 1]) then [stream[|stream| - 1]] else []
  }

  /** `evens(stream)`: the values the generator yields, in order. */
  method Evens(stream: seq<int>) returns (out: seq<int>)
    ensures out == EvensOf(stream)
  {
    out := [];
    for i := 0 to |stream|
      invariant out == EvensOf(stream[..i])
    {
      assert stream[..i + 1][..i] == stream[..i];
      if stream[i] % 2 == 0 {
        out := out + [stream[i]];
      }
    }
    assert stream[..|stream|] == stream;
  }

  /** Filtering a stream in two parts gives the evens of the first part, then those of the
      second: the order of the stream is kept. */
  lemma {:induction false} EvensOfConcat(a: seq<int>, b: seq<int>)
    ensures EvensOf(a + b) == EvensOf(a) + EvensOf(b)
    decreases |b|
  {
    if b != [] {
      var init := b[..|b| - 1];
      assert (a + b)[..|a + b| - 1] == a + init;
      EvensOfConcat(a, init);
    } else {
      assert a + b == a;
    }
  }

  /** Each even value occurs in the output as often as in the stream; odd values not at all. */
  lemma {:induction false} EvensOfCount(stream: seq<int>, x: int)
    ensures multiset(EvensOf(stream))[x] == if IsEven(x) then multiset(stream)[x] else 0
  {
    if stream != [] {
      var init := stream[..|stream| - 1];
      EvensOfCount(init, x);
      assert stream == init + [stream[|stream| - 1]];
    }
  }

  // ---- range_2d

  /** The cell at position i of a row-major walk of rows of the given width. */
  function Cell(i: nat, width: int): (int, int)
    requires width > 0
  {
    (i % width, i / width)
  }

  /** Position y * width + x of the walk is the cell (x, y). */
  lemma CellAt(x: int, y: int, width: int)
    requires 0 <= x < width && 0 <= y
    ensures Cell(y * width + x, width) == (x, y)
  {
    DivModUnique(y * width + x, width, y, x);
  }

  /** The walk is row-major: a later position is a later row, or the same row further right. */
  lemma CellOrder(i: nat, j: nat, width: int)
    requires width > 0 && i < j
    ensures var ci, cj := Cell(i, width), Cell(j, width);
      ci.1 < cj.1 || (ci.1 == cj.1 && ci.0 < cj.0)
  {
    var xi, yi, xj, yj := i % width, i / width, j % width, j / width;
    assert i == yi * width + xi && j == yj * width + xj;
    assert i - j == (yi - yj) * width + (xi - xj);
    if yi > yj {
      MulAtLeast(yi - yj, width);
    }
  }

  /** `range_2d(width, height)`: every (x, y) with y over `range(height)` and, for each, x over
      `range(width)`. */
  method Range2D(width: int, height: int) returns (out: seq<(int, int)>)
    ensures |out| == if width > 0 && height > 0 then width * height else 0
    ensures width > 0 ==> forall i :: 0 <= i < |out| ==> out[i] == Cell(i, width)
  {
    out := [];
    var y := 0;
    while y < height
      invariant 0 <= y <= if height > 0 then height else 0
      invariant |out| == if width > 0 then y * width else 0
      invariant width > 0 ==> forall i :: 0 <= i < |out| ==> out[i] == Cell(i, width)
    {
      var x := 0;
      while x < width
        invariant 0 <= x && (width >= 0 ==> x <= width)
        invariant |out| == if width > 0 then y * width + x else 0
        invariant width > 0 ==> forall i :: 0 <= i < |out| ==> out[i] == Cell(i, width)
      {
        CellAt(x, y, width);
        out := out + [(x, y)];
        x := x + 1;
      }
      y := y + 1;
    }
    if width > 0 && height > 0 {
      assert y == height && width * height == height * width;
    }
  }

  // ---- f(a, L=None)

  /** A Python list object, shared by every name bound to it. */
  class PyList<T> {
    var items: seq<T>

    constructor()
      ensures items == []
    {
      items := [];
    }

    /** `L.append(x)`. */
    method Append(x: T)
      modifies this
      ensures items == old(items) + [x]
    {
      items := items + [x];
    }
  }

  /** `f(a, L=None)`: without a list, a new one is made on every call, so each call returns a
      fresh `[a]`; a list that is passed in gets a appended. */
  method F<T>(a: T, list: PyList?<T>) returns (r: PyList<T>)
    modifies list
    ensures list == null ==> fresh(r) && r.items == [a]
    ensures list != null ==> r == list && r.items == old(list.items) + [a]
  {
    if list == null {
      r := new PyList();
    } else {
      r := list;
    }
    r.Append(a);
  }

  // ---- list_changer

  /** `list_changer(input_list)`: element 0 of the caller's list becomes 10; rebinding the name
      to `list(range(1, 10))` leaves the caller's list alone, and only the new list gets the
      second 10. An empty list raises IndexError at the first assignment. */
  method ListChanger(list: array<int>) returns (raised: bool, local: seq<int>)
    modifies list
    ensures raised <==> list.Length == 0
    ensures !raised ==> list[0] == 10 && forall i :: 1 <= i < list.Length ==> list[i] == old(list[i])
    ensures raised ==> list[..] == old(list[..])
    ensures !raised ==> local == [10, 2, 3, 4, 5, 6, 7, 8, 9]
  {
    if list.Length == 0 {
      return true, [];
    }
    list[0] := 10;
    local := seq(9, i => i + 1);
    local := local[0 := 10];
    raised := false;
  }

  // ---- generate_primes

  /** n is a prime. */
  predicate IsPrime(n: int) {
    n >= 2 && forall d :: 2 <= d < n ==> n % d != 0
  }

  /** The primes from 2 to m, in increasing order. */
  function PrimesTo(m: int): seq<int>
    decreases if m < 2 then 0 else m
  {
    if m < 2 then [] else PrimesTo(m - 1) + if IsPrime(m) then [m] else []
  }

  predicate Increasing(s: seq<int>) {
    forall i, j :: 0 <= i < j < |s| ==> s[i] < s[j]
  }

  /** `PrimesTo(m)` holds exactly the primes up to m, in increasing order. */
  lemma {:induction false} PrimesToSpec(m: int)
    ensures Increasing(PrimesTo(m))
    ensures forall p :: p in PrimesTo(m) <==> IsPrime(p) && p <= m
    decreases if m < 2 then 0 else m
  {
    if m >= 2 {
      PrimesToSpec(m - 1);
      var s := PrimesTo(m - 1);
      assert forall i :: 0 <= i < |s| ==> s[i] in s;
    }
  }

  /** The least divisor of n from d on. */
  function LeastDivisorFrom(n: int, d: int): (r: int)
    requires 2 <= d <= n
    ensures d <= r <= n && n % r == 0
    ensures forall k :: d <= k < r ==> n % k != 0
    decreases n - d
  {
    if n % d == 0 then d else LeastDivisorFrom(n, d + 1)
  }

  lemma MulAtLeast(a: int, c: int)
    requires a >= 1 && c >= 0
    ensures a * c >= c
  {
  }

  lemma MulMonotone(a: int, b: int, c: int)
    requires 0 <= a <= b && c >= 0
    ensures a * c <= b * c
  {
  }

  /** Euclidean division is unique: i = q * w + r with 0 <= r < w gives i / w = q, i % w = r. */
  lemma DivModUnique(i: int, w: int, q: int, r: int)
    requires w > 0 && 0 <= r < w && i == q * w + r
    ensures i / w == q && i % w == r
  {
    var q', r' := i / w, i % w;
    assert i == q' * w + r' && 0 <= r' < w;
    assert (q - q') * w == r' - r;
    if q > q' {
      MulAtLeast(q - q', w);
    } else if q < q' {
      MulAtLeast(q' - q, w);
    }
  }

  /** A divisor of a divisor of n divides n. */
  lemma DividesTrans(n: int, r: int, k: int)
    requires n > 0 && r > 0 && k > 0 && n % r == 0 && r % k == 0
    ensures n % k == 0
  {
    var a, b := n / r, r / k;
    assert n == a * r && r == b * k;
    assert n == (a * b) * k;
    DivModUnique(n, k, a * b, 0);
  }

  /** The least divisor of n above 1 is a prime. */
  lemma LeastDivisorPrime(n: int)
    requires n >= 2
    ensures IsPrime(LeastDivisorFrom(n, 2))
  {
    var r := LeastDivisorFrom(n, 2);
    forall k | 2 <= k < r ensures r % k != 0 {
      if r % k == 0 {
        DividesTrans(n, r, k);
      }
    }
  }

  /** The least divisor of n above 1 is n itself exactly when n is prime; otherwise its
      square is at most n. */
  lemma LeastDivisorSquare(n: int)
    requires n >= 2
    ensures var r := LeastDivisorFrom(n, 2);
      && (IsPrime(n) <==> r == n)
      && (!IsPrime(n) ==> r * r <= n)
  {
    var r := LeastDivisorFrom(n, 2);
    if !IsPrime(n) {
      var d :| 2 <= d < n && n % d == 0;
      assert r <= d < n;
      var e := Cofactor(n, r);
      assert e >= r;
      MulMonotone(r, e, r);
    }
  }

  /** The other factor of a proper divisor r of n: also a proper divisor. */
  lemma Cofactor(n: int, r: int) returns (e: int)
    requires 2 <= r < n && n % r == 0
    ensures e >= 2 && e * r == n && n % e == 0
  {
    e := n / r;
    assert n == e * r;
    if e <= 1 {
      MulMonotone(e, 1, r);
    }
    DivModUnique(n, e, r, 0);
  }

  /** The test of `generate_primes` decides primality: n >= 2 is composite exactly when some
      prime below it, whose square is at most n, divides it. */
  lemma TrialDivisionSound(n: int)
    requires n >= 2
    ensures !IsPrime(n) <==> exists p :: p in PrimesTo(n - 1) && 2 <= p && p * p <= n && n % p == 0
  {
    PrimesToSpec(n - 1);
    if !IsPrime(n) {
      LeastDivisorPrime(n);
      LeastDivisorSquare(n);
      var r := LeastDivisorFrom(n, 2);
      assert r in PrimesTo(n - 1);
    }
  }

  lemma SquareOrder(p: int, r: int, n: int)
    requires 0 <= p <= r && r * r <= n
    ensures p * p <= n
  {
    MulMonotone(p, r, p);
    MulMonotone(p, r, r);
  }

  /** The primes below n are all at least 2. */
  lemma PrimesBelow(n: int, primes: seq<int>)
    requires n >= 2 && primes == PrimesTo(n - 1)
    ensures forall j :: 0 <= j < |primes| ==> IsPrime(primes[j]) && primes[j] < n
  {
    PrimesToSpec(n - 1);
    forall j | 0 <= j < |primes| ensures IsPrime(primes[j]) && primes[j] < n {
      assert primes[j] in primes;
    }
  }

  lemma PrimesIncreasing(m: int, i: nat, k: nat)
    requires i <= k < |PrimesTo(m)|
    ensures PrimesTo(m)[i] <= PrimesTo(m)[k]
  {
    PrimesToSpec(m);
  }

  /** A composite n has a factor among the primes below it whose square is at most n. */
  lemma SmallFactor(n: int, primes: seq<int>) returns (k: nat)
    requires n >= 2 && primes == PrimesTo(n - 1) && !IsPrime(n)
    ensures k < |primes| && primes[k] >= 2 && n % primes[k] == 0 && primes[k] * primes[k] <= n
  {
    PrimesToSpec(n - 1);
    LeastDivisorPrime(n);
    LeastDivisorSquare(n);
    var r := LeastDivisorFrom(n, 2);
    assert r in primes;
    k :| 0 <= k < |primes| && primes[k] == r;
  }

  /** The inner loop of `generate_primes` over the primes found so far: it stops at the first
      prime that divides n, or at the first whose square exceeds n. */
  method TrialDivision(n: int, primes: seq<int>) returns (composite: bool)
    requires n >= 2 && primes == PrimesTo(n - 1)
    ensures composite <==> !IsPrime(n)
  {
    PrimesBelow(n, primes);
    var i := 0;
    while i < |primes|
      invariant 0 <= i <= |primes|
      invariant forall j :: 0 <= j < i ==> primes[j] >= 2 && n % primes[j] != 0
    {
      var p := primes[i];
      if n % p == 0 {
        return true;
      } else if p * p > n {
        break;
      }
      i := i + 1;
    }
    if !IsPrime(n) {
      // The early exit is sound: a composite n has a prime factor whose square is at most n.
      var k := SmallFactor(n, primes);
      if k >= i {
        PrimesIncreasing(n - 1, i, k);
        SquareOrder(primes[i], primes[k], n);
      }
      assert false;
    }
    composite := false;
  }

  /** `generate_primes(stop_at)`, read by a consumer that stops pulling once n passes upTo:
      it yields exactly the primes up to stop_at when 0 < stop_at, and up to upTo in any
      case, in increasing order. */
  method GeneratePrimes(stopAt: int, upTo: int) returns (primes: seq<int>)
    ensures primes == PrimesTo(if 0 < stopAt < upTo then stopAt else upTo)
  {
    primes := [];
    var n := 2;
    while n <= upTo
      invariant n >= 2 && primes == PrimesTo(n - 1)
      invariant 0 < stopAt ==> n <= stopAt + 1
      invariant n <= upTo + 1 || n == 2
      decreases upTo - n
    {
      if 0 < stopAt < n {
        return;
      }
      var composite := TrialDivision(n, primes);
      if !composite {
        primes := primes + [n];
      }
      n := n + 1;
    }
  }

  /** With 0 < stop_at, no value yielded exceeds stop_at, and every prime up to stop_at is
      yielded once the consumer reads that far. */
  lemma GeneratePrimesBound(stopAt: int, upTo: int, p: int)
    requires 0 < stopAt
    ensures p in PrimesTo(if 0 < stopAt < upTo then stopAt else upTo) ==> IsPrime(p) && p <= stopAt
    ensures upTo >= stopAt && IsPrime(p) && p <= stopAt ==> p in PrimesTo(if 0 < stopAt < upTo then stopAt else upTo)
  {
    PrimesToSpec(if 0 < stopAt < upTo then stopAt else upTo);
  }
}
