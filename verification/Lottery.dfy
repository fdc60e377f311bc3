/** The lottery scheduler: the two passes of scheduler() in proc.c, and how often each process wins. */
module Lottery {
  import opened Counting
  import opened Generator

  const INT_MAX: int := 0x7fff_ffff

  datatype Process = Process(runnable: bool, tickets: int)

  predicate TableOk(procs: seq<Process>) {
    forall i | 0 <= i < |procs| && procs[i].runnable :: procs[i].tickets >= 1
  }

  function Share(pr: Process): int { if pr.runnable then pr.tickets else 0 }

  /** The RUNNABLE tickets of the first n processes. */
  function Tickets(procs: seq<Process>, n: nat): int
    requires n <= |procs|
  {
    if n == 0 then 0 else Tickets(procs, n - 1) + Share(procs[n - 1])
  }

  lemma {:induction false} TicketsGrow(procs: seq<Process>, m: nat, n: nat)
    requires TableOk(procs) && m <= n <= |procs|
    ensures 0 <= Tickets(procs, m) <= Tickets(procs, n)
    decreases n
  {
    if m < n { TicketsGrow(procs, m, n - 1); } else if m > 0 { TicketsGrow(procs, m - 1, n - 1); }
  }

  /** Process p holds ticket t: its tickets follow those of the processes before it. */
  predicate HoldsTicket(procs: seq<Process>, p: int, t: int) {
    0 <= p < |procs| && procs[p].runnable && Tickets(procs, p) <= t < Tickets(procs, p + 1)
  }

  lemma OneHolder(procs: seq<Process>, p: int, q: int, t: int)
    requires TableOk(procs) && HoldsTicket(procs, p, t) && HoldsTicket(procs, q, t)
    ensures p == q
  {
    if p < q { TicketsGrow(procs, p + 1, q); } else if q < p { TicketsGrow(procs, q + 1, p); }
  }

  /** The first pass: count the RUNNABLE tickets, in an int. */
  method Count(procs: seq<Process>) returns (total: int)
    requires TableOk(procs) && Tickets(procs, |procs|) <= INT_MAX
    ensures total == Tickets(procs, |procs|) && 0 <= total
  {
    total := 0;
    var i := 0;
    while i < |procs|
      invariant 0 <= i <= |procs| && 0 <= total == Tickets(procs, i) <= INT_MAX
    {
      TicketsGrow(procs, i + 1, |procs|);
      if procs[i].runnable {
        total := total + procs[i].tickets;
      }
      i := i + 1;
    }
  }

  /**
   * The second pass: the process that holds the winning ticket, by the table as this pass finds
   * it; -1 exactly when that table has too few tickets.
   */
  method Pick(procs: seq<Process>, ticket: int) returns (winner: int)
    requires TableOk(procs) && 0 <= ticket && Tickets(procs, |procs|) <= INT_MAX
    ensures winner == -1 <==> Tickets(procs, |procs|) <= ticket
    ensures winner != -1 ==> HoldsTicket(procs, winner, ticket)
  {
    var sum := 0;
    var i := 0;
    while i < |procs|
      invariant 0 <= i <= |procs| && sum == Tickets(procs, i) <= ticket
    {
      TicketsGrow(procs, i + 1, |procs|);
      if procs[i].runnable {
        sum := sum + procs[i].tickets;
        if sum > ticket {
          return i;
        }
      }
      i := i + 1;
    }
    return -1;
  }

  /** One round of scheduler() in lottery mode, with the table unchanged between its passes; -1: nobody is RUNNABLE. */
  method Schedule(procs: seq<Process>, rng: Random) returns (winner: int)
    requires TableOk(procs) && Tickets(procs, |procs|) <= INT_MAX && 0 <= rng.seed < M
    modifies rng
    ensures 0 <= rng.seed < M
    ensures winner == -1 <==> forall p | 0 <= p < |procs| :: !procs[p].runnable
    ensures winner != -1 ==> Tickets(procs, |procs|) > 0 && rng.seed == Next(old(rng.seed))
    ensures winner != -1 ==> HoldsTicket(procs, winner, rng.seed % Tickets(procs, |procs|))
  {
    var total := Count(procs);
    if total == 0 {
      forall p | 0 <= p < |procs| ensures !procs[p].runnable { TicketsGrow(procs, 0, p); TicketsGrow(procs, p + 1, |procs|); }
      return -1;
    }
    SomeRunnable(procs, |procs|);
    var ticket := rng.Draw(total);
    winner := Pick(procs, ticket);
  }

  lemma {:induction false} SomeRunnable(procs: seq<Process>, n: nat)
    requires n <= |procs| && Tickets(procs, n) != 0
    ensures exists p :: 0 <= p < n && procs[p].runnable
  {
    if !procs[n - 1].runnable { SomeRunnable(procs, n - 1); }
  }

  const NPROC: int := 64

  /** The sum fits an int if no process has more than INT_MAX / 64 tickets; settickets() does not see to it. */
  lemma {:induction false} SumFits(procs: seq<Process>, n: nat)
    requires TableOk(procs) && n <= |procs| <= NPROC && forall i | 0 <= i < |procs| :: procs[i].tickets <= 33554431
    ensures Tickets(procs, n) <= 33554431 * n <= INT_MAX
  {
    if n > 0 { SumFits(procs, n - 1); }
  }

  /** One ticket more for each can be too much. */
  lemma SumMayNotFit()
    ensures var procs := seq(NPROC, i => Process(true, 33554432)); TableOk(procs) && Tickets(procs, NPROC) == INT_MAX + 1
  {
    SumOfEqual(33554432, NPROC);
  }

  lemma {:induction false} SumOfEqual(t: int, n: nat)
    requires n <= NPROC
    ensures Tickets(seq(NPROC, i => Process(true, t)), n) == n * t
  {
    if n > 0 { SumOfEqual(t, n - 1); }
  }

  // ---------------------------------------------------------------- shares

  /** The draws that p wins are as many as its tickets. */
  lemma ExactShare(procs: seq<Process>, p: int)
    requires TableOk(procs) && 0 <= p < |procs| && procs[p].runnable
    ensures |set t | 0 <= t < Tickets(procs, |procs|) && HoldsTicket(procs, p, t)| == procs[p].tickets
  {
    TicketsGrow(procs, 0, p);
    TicketsGrow(procs, p + 1, |procs|);
    var wins := set t | 0 <= t < Tickets(procs, |procs|) && HoldsTicket(procs, p, t);
    assert wins == Range(Tickets(procs, p), procs[p].tickets);
  }

  /** Every draw has exactly one winner. */
  lemma SomeHolder(procs: seq<Process>, t: int)
    requires TableOk(procs) && 0 <= t < Tickets(procs, |procs|)
    ensures exists p :: HoldsTicket(procs, p, t)
    ensures forall p, q | HoldsTicket(procs, p, t) && HoldsTicket(procs, q, t) :: p == q
  {
    FindHolder(procs, t, |procs|);
    forall p, q | HoldsTicket(procs, p, t) && HoldsTicket(procs, q, t) ensures p == q { OneHolder(procs, p, q, t); }
  }

  lemma {:induction false} FindHolder(procs: seq<Process>, t: int, n: nat)
    requires n <= |procs| && 0 <= t < Tickets(procs, n)
    ensures exists p :: HoldsTicket(procs, p, t)
  {
    if t < Tickets(procs, n - 1) { FindHolder(procs, t, n - 1); } else { assert HoldsTicket(procs, n - 1, t); }
  }

  // ---------------------------------------------------------------- over a whole period of the generator

  /** How many of the first n draws, starting after seed x, process p wins. */
  ghost function Wins(procs: seq<Process>, p: int, x: int, n: nat): int
    requires Tickets(procs, |procs|) > 0
  {
    if n == 0 then 0 else
    Wins(procs, p, x, n - 1) + if HoldsTicket(procs, p, Seed(x, n) % Tickets(procs, |procs|)) then 1 else 0
  }

  /** The members v of s with lo <= v % total < hi. */
  ghost function Hits(s: set<int>, total: int, lo: int, hi: int): set<int>
    requires total > 0
  {
    set v | v in s && lo <= v % total < hi
  }

  /** Counting wins is counting hits among the seeds visited. */
  lemma {:induction false} WinsAreHits(procs: seq<Process>, p: int, x: int, n: nat)
    requires Tickets(procs, |procs|) > 0 && 0 <= p < |procs| && procs[p].runnable && 0 <= x < M && n <= M
    ensures Wins(procs, p, x, n) == |Hits(Visited(Next(x), n), Tickets(procs, |procs|), Tickets(procs, p), Tickets(procs, p + 1))|
  {
    hide Seed, Visited, Tickets, Hits, Next;
    var total, lo, hi := Tickets(procs, |procs|), Tickets(procs, p), Tickets(procs, p + 1);
    if n > 0 {
      WinsAreHits(procs, p, x, n - 1);
      NextVisit(x, n);
      OneMoreHit(Visited(Next(x), n - 1), Seed(x, n), total, lo, hi);
    } else {
      NoHits(x, total, lo, hi);
    }
  }

  lemma NextVisit(x: int, n: nat)
    requires 0 <= x < M && 0 < n <= M
    ensures Seed(x, n) !in Visited(Next(x), n - 1) && Visited(Next(x), n) == Visited(Next(x), n - 1) + {Seed(x, n)}
  {
    SeedAdd(x, 1, n - 1);
    assert Seed(x, 1) == Next(Seed(x, 0)) == Next(x);
    NewSeed(Next(x), n - 1);
  }

  lemma OneMoreHit(s: set<int>, v: int, total: int, lo: int, hi: int)
    requires total > 0 && v !in s
    ensures |Hits(s + {v}, total, lo, hi)| == |Hits(s, total, lo, hi)| + if lo <= v % total < hi then 1 else 0
  {
    assert Hits(s + {v}, total, lo, hi) == if lo <= v % total < hi then Hits(s, total, lo, hi) + {v} else Hits(s, total, lo, hi);
  }

  lemma NoHits(x: int, total: int, lo: int, hi: int)
    requires total > 0
    ensures |Hits(Visited(Next(x), 0), total, lo, hi)| == 0
  {
  }

  lemma NewSeed(x: int, n: nat)
    requires 0 <= x < M && n < M
    ensures Seed(x, n) !in Visited(x, n)
  {
    hide Seed;
    if Seed(x, n) in Visited(x, n) {
      var i := FindVisit(x, n, Seed(x, n));
      Distinct(x, i, n);
    }
  }

  /** Of 0, ..., n - 1, how many fall in [lo, hi) modulo total. */
  lemma {:induction false} HitCount(n: nat, total: int, lo: int, hi: int)
    requires 0 <= lo <= hi <= total && total > 0
    ensures n / total * (hi - lo) <= |Hits(Range(0, n), total, lo, hi)| <= (n + total - 1) / total * (hi - lo)
    ensures |Hits(Range(0, n), total, lo, hi)| == n / total * (hi - lo) + Part(n % total, lo, hi)
  {
    hide Range, Part;
    if n > 0 {
      HitCount(n - 1, total, lo, hi);
      assert Range(0, n) == Range(0, n - 1) + {n - 1};
      OneMoreHit(Range(0, n - 1), n - 1, total, lo, hi);
      OneMore(n, total, lo, hi);
    } else {
      assert Hits(Range(0, 0), total, lo, hi) == {};
      NoPart(total, lo, hi);
    }
    CountBounds(n, total, lo, hi);
  }

  /** How many of 0, ..., r - 1 are in [lo, hi). */
  function Part(r: int, lo: int, hi: int): int {
    if r <= lo then 0 else if r >= hi then hi - lo else r - lo
  }

  lemma NoPart(total: int, lo: int, hi: int)
    requires 0 <= lo && total > 0
    ensures 0 / total == 0 && Part(0 % total, lo, hi) == 0
  {
  }

  lemma OneMore(n: nat, total: int, lo: int, hi: int)
    requires 0 <= lo <= hi <= total && total > 0 && n > 0
    ensures n / total * (hi - lo) + Part(n % total, lo, hi)
            == (n - 1) / total * (hi - lo) + Part((n - 1) % total, lo, hi) + if lo <= (n - 1) % total < hi then 1 else 0
  {
    var q, r := (n - 1) / total, (n - 1) % total;
    assert n == q * total + (r + 1);
    if r + 1 == total {
      assert n == (q + 1) * total;
      DivideExactly(n, total, q + 1, 0);
      assert (q + 1) * (hi - lo) == q * (hi - lo) + (hi - lo);
    } else {
      DivideExactly(n, total, q, r + 1);
    }
  }

  lemma DivideExactly(n: int, d: int, q: int, r: int)
    requires d > 0 && n == q * d + r && 0 <= r < d
    ensures n / d == q && n % d == r
  {
    var q', r' := n / d, n % d;
    assert q' * d + r' == n;
    assert (q - q') * d == r' - r;
    if q > q' { AtLeast(d, q - q'); } else if q < q' { AtLeast(d, q' - q); }
  }

  lemma CountBounds(n: nat, total: int, lo: int, hi: int)
    requires 0 <= lo <= hi <= total && total > 0
    ensures n / total * (hi - lo) <= n / total * (hi - lo) + Part(n % total, lo, hi) <= (n + total - 1) / total * (hi - lo)
  {
    var q, r := n / total, n % total;
    assert n == q * total + r;
    if r == 0 {
      DivideExactly(n + total - 1, total, q, total - 1);
    } else {
      assert n + total - 1 == (q + 1) * total + (r - 1);
      DivideExactly(n + total - 1, total, q + 1, r - 1);
      assert (q + 1) * (hi - lo) == q * (hi - lo) + (hi - lo);
    }
  }

  /**
   * Fairness: while the table stays the same, in any 2^32 successive draws process p wins at
   * least tickets * floor(2^32 / T) and at most tickets * ceil(2^32 / T) times.
   */
  lemma FairShare(procs: seq<Process>, p: int, x: int)
    requires TableOk(procs) && 0 < Tickets(procs, |procs|) <= INT_MAX && 0 <= p < |procs| && procs[p].runnable && 0 <= x < M
    ensures var total := Tickets(procs, |procs|);
            M / total * procs[p].tickets <= Wins(procs, p, x, M) <= (M + total - 1) / total * procs[p].tickets
  {
    hide Visited, Range, Wins, Tickets, Seed;
    VisitedCount(Next(x), M);
    FullSubset(Visited(Next(x), M), Range(0, M));
    ShareOf(procs, p, x, M);
  }

  lemma ShareOf(procs: seq<Process>, p: int, x: int, n: nat)
    requires TableOk(procs) && 0 < Tickets(procs, |procs|) && 0 <= p < |procs| && procs[p].runnable && 0 <= x < M && n <= M
    requires Visited(Next(x), n) == Range(0, n)
    ensures var total := Tickets(procs, |procs|);
            n / total * procs[p].tickets <= Wins(procs, p, x, n) <= (n + total - 1) / total * procs[p].tickets
  {
    hide Visited, Range, Wins, Seed;
    TicketsGrow(procs, 0, p);
    TicketsGrow(procs, p + 1, |procs|);
    WinsAreHits(procs, p, x, n);
    HitCount(n, Tickets(procs, |procs|), Tickets(procs, p), Tickets(procs, p + 1));
    assert Tickets(procs, p + 1) - Tickets(procs, p) == procs[p].tickets;
  }
}
