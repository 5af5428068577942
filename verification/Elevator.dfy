/**
  The disk queue of kernel/hd.c as a sequence of addresses, the first being
  transferred now: insertion by add_request, removal at completion, and how
  long a request can be overtaken.
 */
module Elevator {

  datatype Address = Address(hd: nat, cyl: nat, head: nat, sector: nat)

  /** IN_ORDER. */
  predicate InOrder(a: Address, b: Address) {
    a.hd < b.hd || (a.hd == b.hd &&
      (a.cyl < b.cyl || (a.cyl == b.cyl &&
        (a.head < b.head || (a.head == b.head &&
          a.sector < b.sector)))))
  }

  /** Two different addresses are in order one way or the other, never both. */
  lemma StrictOrder(a: Address, b: Address, c: Address)
    ensures a != b ==> (InOrder(a, b) <==> !InOrder(b, a))
    ensures !InOrder(a, a)
    ensures InOrder(a, b) && InOrder(b, c) ==> InOrder(a, c)
  {
  }

  // ----- addresses and sectors ------------------------------------------------

  /** The divisions of rw_hd: an absolute sector of drive hd as cylinder, head and sector. */
  function Split(hd: nat, block: nat, heads: nat, sects: nat): (a: Address)
    requires heads > 0 && sects > 0
  {
    Address(hd, block / sects / heads, block / sects % heads, block % sects + 1)
  }

  function Linear(a: Address, heads: nat, sects: nat): int {
    (a.cyl * heads + a.head) * sects + a.sector - 1
  }

  lemma SplitLinear(hd: nat, block: nat, heads: nat, sects: nat)
    requires heads > 0 && sects > 0
    ensures Linear(Split(hd, block, heads, sects), heads, sects) == block
    ensures Split(hd, block, heads, sects).head < heads && 1 <= Split(hd, block, heads, sects).sector <= sects
  {
    var track := block / sects;
    assert track == track / heads * heads + track % heads;
    assert block == track * sects + block % sects;
  }

  /** On one drive the elevator's order is the order of sector numbers. */
  lemma InOrderIsSectorOrder(hd: nat, x: nat, y: nat, heads: nat, sects: nat)
    requires heads > 0 && sects > 0
    ensures InOrder(Split(hd, x, heads, sects), Split(hd, y, heads, sects)) <==> x < y
  {
    if x < y {
      SplitMonotone(hd, x, y, heads, sects);
    } else if y < x {
      SplitMonotone(hd, y, x, heads, sects);
      StrictOrder(Split(hd, x, heads, sects), Split(hd, y, heads, sects), Split(hd, x, heads, sects));
    }
  }

  lemma SplitMonotone(hd: nat, x: nat, y: nat, heads: nat, sects: nat)
    requires heads > 0 && sects > 0 && x < y
    ensures InOrder(Split(hd, x, heads, sects), Split(hd, y, heads, sects))
  {
    DivMonotone(x, y, sects);
    DivMonotone(x / sects, y / sects, heads);
    assert x == x / sects * sects + x % sects && y == y / sects * sects + y % sects;
    assert x / sects == x / sects / heads * heads + x / sects % heads;
    assert y / sects == y / sects / heads * heads + y / sects % heads;
  }

  lemma DivMonotone(x: nat, y: nat, d: nat)
    requires d > 0 && x <= y
    ensures x / d <= y / d
  {
    var a, b := x / d, y / d;
    assert x == a * d + x % d && y == b * d + y % d;
    if a >= b + 1 {
      MulMonotone(b + 1, a, d);
    }
  }

  lemma MulMonotone(a: nat, b: nat, d: nat)
    requires a <= b
    ensures a * d <= b * d && (a + 1) * d == a * d + d
  {
  }

  // ----- insertion ------------------------------------------------------------

  /** The test in the loop of add_request, for entries k and k + 1. */
  predicate Fits(q: seq<Address>, r: Address, k: nat)
    requires k + 1 < |q|
  {
    (InOrder(q[k], r) || !InOrder(q[k], q[k + 1])) && InOrder(r, q[k + 1])
  }

  /** Behind which entry the loop stops, starting at entry k. */
  function Place(q: seq<Address>, r: Address, k: nat): (p: nat)
    requires k < |q|
    ensures k <= p < |q|
    ensures p + 1 < |q| ==> Fits(q, r, p)
    ensures forall j :: k <= j < p ==> !Fits(q, r, j)
    decreases |q| - k
  {
    if k + 1 == |q| || Fits(q, r, k) then k else Place(q, r, k + 1)
  }

  /** add_request never touches the first two entries: they belong to the interrupt handler. */
  function Insert(q: seq<Address>, r: Address): (s: seq<Address>)
    ensures |s| == |q| + 1
  {
    if |q| <= 1 then q + [r]
    else
      var p := Place(q, r, 1);
      q[..p + 1] + [r] + q[p + 1..]
  }

  /** Where the new request stands. */
  function Position(q: seq<Address>, r: Address): (j: nat)
    ensures j < |Insert(q, r)| && Insert(q, r)[j] == r
    ensures Insert(q, r) == q[..j] + [r] + q[j..]
  {
    if |q| <= 1 then |q| else Place(q, r, 1) + 1
  }

  /**
    The request being transferred and the one after it, which the interrupt handler
    may start at any time, stay where they are; all others keep their order.
   */
  lemma FirstTwoStay(q: seq<Address>, r: Address)
    ensures |q| >= 1 ==> Insert(q, r)[0] == q[0]
    ensures |q| >= 2 ==> Insert(q, r)[1] == q[1]
    ensures exists j :: 0 <= j <= |q| && Insert(q, r) == q[..j] + [r] + q[j..]
  {
    var j := Position(q, r);
    assert Insert(q, r) == q[..j] + [r] + q[j..];
  }

  /** How often the order breaks. */
  function Descents(s: seq<Address>): nat {
    if |s| <= 1 then 0 else Descents(s[..|s| - 1]) + (if InOrder(s[|s| - 2], s[|s| - 1]) then 0 else 1)
  }

  lemma {:induction false} DescentsJoin(a: seq<Address>, b: seq<Address>)
    ensures Descents(a + b) == Descents(a) + Descents(b)
              + (if a == [] || b == [] || InOrder(a[|a| - 1], b[0]) then 0 else 1)
  {
    if b == [] {
      assert a + b == a;
    } else if |b| == 1 {
      assert (a + b)[..|a|] == a;
    } else {
      var c := b[..|b| - 1];
      assert (a + b)[..|a + b| - 1] == a + c;
      DescentsJoin(a, c);
    }
  }

  /** Squeezing r in between two neighbours where it fits breaks the order no more often than before. */
  lemma SqueezeKeeps(a: seq<Address>, r: Address, b: seq<Address>)
    requires a != [] && b != [] && (InOrder(a[|a| - 1], r) || !InOrder(a[|a| - 1], b[0])) && InOrder(r, b[0])
    ensures Descents(a + [r] + b) <= Descents(a + b)
  {
    DescentsJoin(a, b);
    DescentsJoin(a + [r], b);
    DescentsJoin(a, [r]);
    assert (a + [r])[|a + [r]| - 1] == r;
    StrictOrder(a[|a| - 1], r, b[0]);
  }

  predicate Distinct(q: seq<Address>) { forall i, j :: 0 <= i < j < |q| ==> q[i] != q[j] }

  /** The waiting requests, behind the one being served. */
  function Waiting(q: seq<Address>): seq<Address> { if q == [] then [] else q[1..] }

  /** If the loop reaches the end, the last request is before r or the order has not broken yet. */
  lemma {:induction false} AppendKeeps(w: seq<Address>, r: Address)
    requires w != [] && Descents(w) <= 1 && forall k :: 0 <= k < |w| ==> w[k] != r
    requires forall k :: 0 <= k < |w| - 1 ==> !((InOrder(w[k], r) || !InOrder(w[k], w[k + 1])) && InOrder(r, w[k + 1]))
    ensures Descents(w + [r]) <= 1
  {
    DescentsJoin(w, [r]);
    if !InOrder(w[|w| - 1], r) {
      StrictOrder(w[|w| - 1], r, r);
      AllBehind(w, r, 0);
    }
  }

  /** r comes before the last request although it fitted nowhere: then it comes before all, and there was no break. */
  lemma {:induction false} AllBehind(w: seq<Address>, r: Address, k: nat)
    requires k < |w| && InOrder(r, w[|w| - 1]) && forall j :: 0 <= j < |w| ==> w[j] != r
    requires forall j :: 0 <= j < |w| - 1 ==> !((InOrder(w[j], r) || !InOrder(w[j], w[j + 1])) && InOrder(r, w[j + 1]))
    ensures InOrder(r, w[k]) && Descents(w[k..]) == 0
    decreases |w| - k
  {
    if k == |w| - 1 {
    } else {
      AllBehind(w, r, k + 1);
      StrictOrder(w[k], r, r);
      DescentsJoin([w[k]], w[k + 1..]);
      assert [w[k]] + w[k + 1..] == w[k..];
    }
  }

  lemma InsertLast(q: seq<Address>, r: Address)
    requires Distinct(q + [r]) && Descents(Waiting(q)) <= 1 && |q| > 1 && Place(q, r, 1) + 1 == |q|
    ensures Descents(Waiting(q + [r])) <= 1
  {
    var w := q[1..];
    forall k | 0 <= k < |w|
      ensures w[k] != r
    {
      assert (q + [r])[k + 1] == w[k] && (q + [r])[|q|] == r;
    }
    forall k | 0 <= k < |w| - 1
      ensures !((InOrder(w[k], r) || !InOrder(w[k], w[k + 1])) && InOrder(r, w[k + 1]))
    {
      assert !Fits(q, r, k + 1);
    }
    AppendKeeps(w, r);
    WaitingJoin(q, [r]);
  }

  lemma InsertInside(q: seq<Address>, r: Address, p: nat)
    requires Descents(Waiting(q)) <= 1 && 1 <= p && p + 1 < |q| && Fits(q, r, p)
    ensures Descents(Waiting(q[..p + 1] + [r] + q[p + 1..])) <= 1
  {
    var x, y := q[..p + 1], q[p + 1..];
    assert x[|x| - 1] == q[p] && y[0] == q[p + 1];
    SqueezeBehindFirst(x, r, y);
    assert x + y == q;
  }

  lemma SqueezeBehindFirst(x: seq<Address>, r: Address, y: seq<Address>)
    requires |x| >= 2 && y != [] && (InOrder(x[|x| - 1], r) || !InOrder(x[|x| - 1], y[0])) && InOrder(r, y[0])
    ensures Descents(Waiting(x + [r] + y)) <= Descents(Waiting(x + y))
  {
    Assoc(x, [r], y);
    FromNothing(x + y);
    FromNothing(x + ([r] + y));
    AddAhead([], x, r, y);
  }

  lemma FromNothing(s: seq<Address>)
    ensures [] + s == s
  {
  }

  /** The queue behind the current request always consists of at most two ascending sweeps. */
  lemma InsertKeepsTwoSweeps(q: seq<Address>, r: Address)
    requires Distinct(q + [r]) && Descents(Waiting(q)) <= 1
    ensures Descents(Waiting(Insert(q, r))) <= 1
  {
    if |q| > 1 {
      var p := Place(q, r, 1);
      if p + 1 == |q| {
        InsertLast(q, r);
        assert q[..p + 1] + [r] + q[p + 1..] == q + [r];
      } else {
        InsertInside(q, r, p);
      }
    }
  }

  /** Distinct addresses are needed: a third equal request behind the current one starts a third sweep. */
  lemma RepeatsBreakIt(a: Address)
    ensures Descents(Waiting([a, a, a])) == 1 && Descents(Waiting(Insert([a, a, a], a))) == 2
  {
    var q, s := [a, a, a], [a, a, a, a];
    StrictOrder(a, a, a);
    assert !Fits(q, a, 1) && Place(q, a, 1) == 2;
    assert q[..3] + [a] + q[3..] == s;
    assert Waiting(q) == [a, a] && Waiting(s) == q;
    SameAgain([a], a);
    SameAgain([a, a], a);
    assert [a] + [a] == [a, a] && [a, a] + [a] == q;
  }

  lemma SameAgain(s: seq<Address>, a: Address)
    requires s != [] && s[|s| - 1] == a
    ensures Descents(s + [a]) == Descents(s) + 1
  {
    DescentsJoin(s, [a]);
  }

  /** Completion takes the first request off the queue. */
  lemma CompleteKeepsTwoSweeps(q: seq<Address>)
    requires q != [] && Descents(Waiting(q)) <= 1
    ensures Descents(Waiting(Waiting(q))) <= 1
  {
    if |q| >= 2 {
      DescentsJoin([q[1]], q[2..]);
      assert [q[1]] + q[2..] == q[1..];
    }
  }

  // ----- runs -----------------------------------------------------------------

  datatype Event = Add(a: Address) | Complete

  datatype Run = Stop | Then(first: Event, rest: Run)

  predicate Possible(q: seq<Address>, e: Event) {
    match e
    case Add(a) => a !in q
    case Complete => q != []
  }

  function Apply(q: seq<Address>, e: Event): seq<Address>
    requires Possible(q, e)
  {
    match e
    case Add(a) => Insert(q, a)
    case Complete => q[1..]
  }

  predicate CanRun(q: seq<Address>, es: Run)
    decreases es
  {
    es.Stop? || (Possible(q, es.first) && CanRun(Apply(q, es.first), es.rest))
  }

  function End(q: seq<Address>, es: Run): seq<Address>
    requires CanRun(q, es)
    decreases es
  {
    if es.Stop? then q else End(Apply(q, es.first), es.rest)
  }

  lemma InsertKeepsDistinct(q: seq<Address>, r: Address)
    requires Distinct(q) && r !in q
    ensures Distinct(Insert(q, r)) && Distinct(q + [r])
  {
    var j := Position(q, r);
    assert Insert(q, r) == q[..j] + [r] + q[j..];
  }

  /** Over every run from a queue of at most two sweeps, in particular from the empty one, it stays so. */
  lemma {:induction false} AlwaysTwoSweeps(q: seq<Address>, es: Run)
    requires CanRun(q, es) && Distinct(q) && Descents(Waiting(q)) <= 1
    ensures Distinct(End(q, es)) && Descents(Waiting(End(q, es))) <= 1
    decreases es
  {
    if es.Then? {
      match es.first {
        case Add(a) =>
          InsertKeepsDistinct(q, a);
          InsertKeepsTwoSweeps(q, a);
        case Complete =>
          CompleteKeepsTwoSweeps(q);
      }
      AlwaysTwoSweeps(Apply(q, es.first), es.rest);
    }
  }

  /** What has been served after one more event, in order. */
  function Past(past: seq<Address>, q: seq<Address>, e: Event): seq<Address>
    requires Possible(q, e)
  {
    if e.Complete? then past + [q[0]] else past
  }

  /** What has been served after the run. */
  function Served(past: seq<Address>, q: seq<Address>, es: Run): seq<Address>
    requires CanRun(q, es)
    decreases es
  {
    if es.Stop? then past else Served(Past(past, q, es.first), Apply(q, es.first), es.rest)
  }

  /** Entry j of the queue is not served during the run; where it stands at the end. */
  predicate Waits(q: seq<Address>, es: Run, j: nat)
    requires CanRun(q, es)
    decreases es
  {
    es.Stop? || ((es.first.Complete? ==> j > 0) && Waits(Apply(q, es.first), es.rest, Moved(q, es.first, j)))
  }

  function Moved(q: seq<Address>, e: Event, j: nat): nat
    requires Possible(q, e) && (e.Complete? ==> j > 0)
  {
    match e
    case Complete => j - 1
    case Add(a) => if Position(q, a) <= j then j + 1 else j
  }

  function EndsAt(q: seq<Address>, es: Run, j: nat): nat
    requires CanRun(q, es) && Waits(q, es, j)
    decreases es
  {
    if es.Stop? then j else EndsAt(Apply(q, es.first), es.rest, Moved(q, es.first, j))
  }

  lemma WaitingJoin(x: seq<Address>, y: seq<Address>)
    requires x != []
    ensures Waiting(x + y) == Waiting(x) + y
  {
  }

  lemma Assoc(x: seq<Address>, y: seq<Address>, z: seq<Address>)
    ensures x + y + z == x + (y + z)
  {
  }

  lemma {:induction false} EndsInQueue(q: seq<Address>, es: Run, j: nat)
    requires CanRun(q, es) && j < |q| && Waits(q, es, j)
    ensures EndsAt(q, es, j) < |End(q, es)| && End(q, es)[EndsAt(q, es, j)] == q[j]
    decreases es
  {
    if es.Then? {
      MovedInQueue(q, es.first, j);
      EndsInQueue(Apply(q, es.first), es.rest, Moved(q, es.first, j));
    }
  }

  lemma MovedInQueue(q: seq<Address>, e: Event, j: nat)
    requires Possible(q, e) && j < |q| && (e.Complete? ==> j > 0)
    ensures Moved(q, e, j) < |Apply(q, e)| && Apply(q, e)[Moved(q, e, j)] == q[j]
  {
    if e.Add? {
      assert Insert(q, e.a) == q[..Position(q, e.a)] + [e.a] + q[Position(q, e.a)..];
    }
  }

  /** How often the order breaks on the way to entry j, after what was served before. */
  function Breaks(past: seq<Address>, q: seq<Address>, j: nat): nat
    requires j < |q|
  {
    Descents(Waiting(past + q[..j + 1]))
  }

  /**
    Bounded overtaking.  Take a request at entry j and any run during which it
    is not finished.  Everything served in the run and everything still ahead
    of it breaks the order no more often than what was ahead of it at the
    start; `past` is what was served before, the first of it the request that
    was current when the observation began.
   */
  lemma {:induction false} OvertakingBounded(past: seq<Address>, q: seq<Address>, es: Run, j: nat)
    requires CanRun(q, es) && j < |q| && Waits(q, es, j)
    ensures EndsAt(q, es, j) < |End(q, es)|
    ensures Breaks(Served(past, q, es), End(q, es), EndsAt(q, es, j)) <= Breaks(past, q, j)
    decreases es
  {
    if es.Then? {
      StepDoesNotHurt(past, q, es.first, j);
      OvertakingBounded(Past(past, q, es.first), Apply(q, es.first), es.rest, Moved(q, es.first, j));
    }
  }

  /** No event raises the number of breaks ahead of a waiting request. */
  lemma StepDoesNotHurt(past: seq<Address>, q: seq<Address>, e: Event, j: nat)
    requires Possible(q, e) && j < |q| && (e.Complete? ==> j > 0)
    ensures Moved(q, e, j) < |Apply(q, e)|
    ensures Breaks(Past(past, q, e), Apply(q, e), Moved(q, e, j)) <= Breaks(past, q, j)
  {
    match e
    case Complete => FirstServed(past, q, j);
    case Add(a) => AddDoesNotHurt(past, q, a, j);
  }

  lemma FirstServed(past: seq<Address>, q: seq<Address>, j: nat)
    requires 0 < j < |q|
    ensures past + [q[0]] + q[1..][..j] == past + q[..j + 1]
  {
  }

  lemma AddDoesNotHurt(past: seq<Address>, q: seq<Address>, a: Address, j: nat)
    requires j < |q| && a !in q
    ensures Moved(q, Add(a), j) < |Insert(q, a)|
    ensures Breaks(past, Insert(q, a), Moved(q, Add(a), j)) <= Breaks(past, q, j)
  {
    var p := Position(q, a);
    MovedInQueue(q, Add(a), j);
    if p <= j {
      PositionFits(q, a);
      AheadDoesNotHurt(past, q, a, p, j);
    } else {
      PrefixBefore(q, a, p, j);
    }
  }

  lemma AheadDoesNotHurt(past: seq<Address>, q: seq<Address>, a: Address, p: nat, j: nat)
    requires 2 <= p <= j < |q| && Fits(q, a, p - 1)
    ensures Breaks(past, q[..p] + [a] + q[p..], j + 1) <= Breaks(past, q, j)
  {
    PrefixFacts(q, a, p, j);
    AddAhead(past, q[..p], a, q[p..j + 1]);
  }

  lemma PositionFits(q: seq<Address>, a: Address)
    requires Position(q, a) < |q|
    ensures Position(q, a) >= 2 && Fits(q, a, Position(q, a) - 1)
  {
  }

  lemma PrefixBefore(q: seq<Address>, a: Address, p: nat, j: nat)
    requires j < p <= |q|
    ensures (q[..p] + [a] + q[p..])[..j + 1] == q[..j + 1]
  {
  }

  lemma AddAhead(past: seq<Address>, x: seq<Address>, a: Address, y: seq<Address>)
    requires |x| >= 2 && y != [] && (InOrder(x[|x| - 1], a) || !InOrder(x[|x| - 1], y[0])) && InOrder(a, y[0])
    ensures Descents(Waiting(past + (x + ([a] + y)))) <= Descents(Waiting(past + (x + y)))
  {
    Assoc(past, x, y);
    Assoc(past, x, [a] + y);
    WaitingJoin(past + x, y);
    WaitingJoin(past + x, [a] + y);
    Assoc(Waiting(past + x), [a], y);
    LastOfWaiting(past, x);
    SqueezeKeeps(Waiting(past + x), a, y);
  }

  lemma LastOfWaiting(past: seq<Address>, y: seq<Address>)
    requires |y| >= 2
    ensures Waiting(past + y) != [] && Waiting(past + y)[|Waiting(past + y)| - 1] == y[|y| - 1]
  {
  }

  lemma PrefixFacts(q: seq<Address>, a: Address, p: nat, j: nat)
    requires p <= j < |q|
    ensures (q[..p] + [a] + q[p..])[..j + 2] == q[..p] + ([a] + q[p..j + 1])
    ensures q[..j + 1] == q[..p] + q[p..j + 1]
  {
  }

  /**
    From the moment a request is added until it is served: everything served
    in between, except the request that was current at that moment, forms at
    most two strictly ascending sweeps.
   */
  lemma TwoSweepsUntilServed(q: seq<Address>, r: Address, es: Run)
    requires Distinct(q) && r !in q && Descents(Waiting(q)) <= 1
    requires CanRun(Insert(q, r), es) && Waits(Insert(q, r), es, Position(q, r))
    requires EndsAt(Insert(q, r), es, Position(q, r)) == 0
    ensures End(Insert(q, r), es) != [] && End(Insert(q, r), es)[0] == r
    ensures Descents(Waiting(Served([], Insert(q, r), es) + [r])) <= 1
  {
    InsertKeepsDistinct(q, r);
    InsertKeepsTwoSweeps(q, r);
    TwoSweepsFrom(Insert(q, r), es, Position(q, r));
  }

  lemma TwoSweepsFrom(s: seq<Address>, es: Run, j: nat)
    requires Descents(Waiting(s)) <= 1 && j < |s|
    requires CanRun(s, es) && Waits(s, es, j) && EndsAt(s, es, j) == 0
    ensures End(s, es) != [] && End(s, es)[0] == s[j]
    ensures Descents(Waiting(Served([], s, es) + [s[j]])) <= 1
  {
    EndsInQueue(s, es, j);
    OvertakingBounded([], s, es, j);
    assert End(s, es)[..1] == [s[j]];
    assert [] + s[..j + 1] == s[..j + 1];
    PrefixDescents(s, j);
  }

  lemma PrefixDescents(s: seq<Address>, j: nat)
    requires j < |s|
    ensures Descents(Waiting(s[..j + 1])) <= Descents(Waiting(s))
  {
    WaitingJoin(s[..j + 1], s[j + 1..]);
    assert s[..j + 1] + s[j + 1..] == s;
    DescentsJoin(Waiting(s[..j + 1]), s[j + 1..]);
  }

  predicate Ascending(s: seq<Address>) { forall i, j :: 0 <= i < j < |s| ==> InOrder(s[i], s[j]) }

  lemma AscendingSnoc(t: seq<Address>, a: Address)
    requires Ascending(t) && (t == [] || InOrder(t[|t| - 1], a))
    ensures Ascending(t + [a])
  {
    forall i | 0 <= i < |t|
      ensures InOrder(t[i], a)
    {
      StrictOrder(t[i], t[|t| - 1], a);
    }
  }

  lemma {:induction false} NoDescentIsAscending(s: seq<Address>)
    requires Descents(s) == 0
    ensures Ascending(s)
  {
    if |s| > 1 {
      var t := s[..|s| - 1];
      NoDescentIsAscending(t);
      AscendingSnoc(t, s[|s| - 1]);
      assert t + [s[|s| - 1]] == s;
    }
  }

  /** One break means two sweeps, each strictly ascending. */
  lemma {:induction false} TwoSweeps(s: seq<Address>) returns (m: nat)
    requires Descents(s) <= 1
    ensures m <= |s| && Ascending(s[..m]) && Ascending(s[m..])
  {
    if Descents(s) == 0 {
      m := |s|;
      NoDescentIsAscending(s);
      assert s[..m] == s;
    } else {
      var n := |s| - 1;
      if InOrder(s[n - 1], s[n]) {
        m := TwoSweeps(s[..n]);
        assert s[..n][..m] == s[..m];
        var t := s[..n][m..];
        assert m < n ==> t[|t| - 1] == s[n - 1];
        AscendingSnoc(t, s[n]);
        assert t + [s[n]] == s[m..];
      } else {
        m := n;
        NoDescentIsAscending(s[..n]);
      }
    }
  }

  /** So no address is served more than twice ahead of a waiting request. */
  lemma AtMostTwice(s: seq<Address>, a: Address, i: nat, j: nat, k: nat)
    requires Descents(s) <= 1 && i < j < k < |s|
    ensures !(s[i] == a && s[j] == a && s[k] == a)
  {
    var m := TwoSweeps(s);
    StrictOrder(a, a, a);
    if j < m {
      assert InOrder(s[..m][i], s[..m][j]);
    } else {
      assert InOrder(s[m..][j - m], s[m..][k - m]);
    }
  }
}
