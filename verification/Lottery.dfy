/** The lottery scheduler: each round one ticket is drawn and its holder runs for one time slice.
    `rand` is a parameter, so every result holds for every sequence of draws. */
module Lottery {
  import opened Sums

  datatype Task = Task(id: int, burst: int, remaining: int, tickets: int, ticketStart: int, ticketEnd: int)

  // ---------------------------------------------------------------- tickets in play

  /** The tickets of a task that is not complete. */
  function InPlay(t: Task): (n: int)
  {
    if t.remaining > 0 then t.tickets else 0
  }

  /** The tickets in play of the first `n` tasks. */
  function Before(ts: seq<Task>, n: nat): (c: int)
    requires n <= |ts|
  {
    if n == 0 then 0 else Before(ts, n - 1) + InPlay(ts[n - 1])
  }

  function Total(ts: seq<Task>): (c: int)
  {
    Before(ts, |ts|)
  }

  ghost predicate NoneNegative(ts: seq<Task>)
  {
    forall i :: 0 <= i < |ts| ==> ts[i].tickets >= 0
  }

  function WithRange(t: Task, counter: int): (r: Task)
  {
    if t.remaining > 0 then t.(ticketStart := counter + 1, ticketEnd := counter + t.tickets)
    else t.(ticketStart := 0, ticketEnd := 0)
  }

  /** The table after `allocate_ticket_ranges`. */
  function Ranged(ts: seq<Task>): (rs: seq<Task>)
    ensures |rs| == |ts|
  {
    seq(|ts|, i requires 0 <= i < |ts| => WithRange(ts[i], Before(ts, i)))
  }

  predicate Holds(t: Task, ticket: int)
  {
    t.remaining > 0 && t.ticketStart <= ticket <= t.ticketEnd
  }

  lemma {:induction false} BeforeGrows(ts: seq<Task>, i: nat, j: nat)
    requires NoneNegative(ts) && i <= j <= |ts|
    ensures 0 <= Before(ts, i) <= Before(ts, j)
    decreases i + j
  {
    if i < j {
      BeforeGrows(ts, i, j - 1);
    } else if i > 0 {
      BeforeGrows(ts, i - 1, i);
    }
  }

  lemma {:induction false} Holder(ts: seq<Task>, ticket: int, n: nat) returns (i: nat)
    requires n <= |ts| && 1 <= ticket <= Before(ts, n)
    ensures i < n && Holds(Ranged(ts)[i], ticket)
  {
    if ticket <= Before(ts, n - 1) {
      i := Holder(ts, ticket, n - 1);
    } else {
      i := n - 1;
    }
  }

  lemma OneHolder(ts: seq<Task>, ticket: int, i: nat, j: nat)
    requires NoneNegative(ts) && i < j < |ts| && Holds(Ranged(ts)[i], ticket)
    ensures !Holds(Ranged(ts)[j], ticket)
  {
    BeforeGrows(ts, i + 1, j);
  }

  /** The ranges of the incomplete tasks partition 1 to the total: every ticket in it is held by
      exactly one task, and no other ticket by any. */
  lemma RangesPartition(ts: seq<Task>, ticket: int)
    requires NoneNegative(ts)
    ensures 1 <= ticket <= Total(ts) <==> exists i :: 0 <= i < |ts| && Holds(Ranged(ts)[i], ticket)
    ensures forall i, j :: 0 <= i < j < |ts| && Holds(Ranged(ts)[i], ticket) ==> !Holds(Ranged(ts)[j], ticket)
  {
    if 1 <= ticket <= Total(ts) {
      var i := Holder(ts, ticket, |ts|);
    }
    forall i | 0 <= i < |ts| && Holds(Ranged(ts)[i], ticket)
      ensures 1 <= ticket <= Total(ts)
    {
      BeforeGrows(ts, i, i);
      BeforeGrows(ts, i + 1, |ts|);
    }
    forall i, j | 0 <= i < j < |ts| && Holds(Ranged(ts)[i], ticket)
      ensures !Holds(Ranged(ts)[j], ticket)
    {
      OneHolder(ts, ticket, i, j);
    }
  }

  /** A task's chances are its tickets: of the draws from 1 to the total, exactly that many pick it. */
  lemma ChancesAreTickets(ts: seq<Task>, i: nat, wins: set<nat>)
    requires NoneNegative(ts) && i < |ts|
    requires forall w :: w in wins <==> 1 <= w <= Total(ts) && Holds(Ranged(ts)[i], w)
    ensures |wins| == InPlay(ts[i])
  {
    BeforeGrows(ts, i, i);
    BeforeGrows(ts, i + 1, |ts|);
    assert Before(ts, i + 1) == Before(ts, i) + InPlay(ts[i]);
    var range := Interval(Before(ts, i) + 1, InPlay(ts[i]));
    forall w: nat
      ensures w in wins <==> w in range
    {
      assert w in wins <==> 1 <= w <= Total(ts) && Holds(Ranged(ts)[i], w);
    }
    assert wins == range;
  }

  // ---------------------------------------------------------------- work to do

  /** What a task will still run: nothing if it holds no ticket. */
  function Slices(t: Task): (n: nat)
  {
    if t.remaining > 0 && t.tickets > 0 then t.remaining else 0
  }

  function Work(ts: seq<Task>): (n: nat)
  {
    if ts == [] then 0 else Slices(ts[0]) + Work(ts[1..])
  }

  lemma {:induction false} WorkUpdate(ts: seq<Task>, i: nat, t: Task)
    requires i < |ts|
    ensures Work(ts[i := t]) == Work(ts) - Slices(ts[i]) + Slices(t)
  {
    if i > 0 {
      assert ts[i := t][1..] == ts[1..][i - 1 := t];
      WorkUpdate(ts[1..], i - 1, t);
    } else {
      assert ts[i := t][1..] == ts[1..];
    }
  }

  lemma {:induction false} WorkSame(ts: seq<Task>, rs: seq<Task>)
    requires |rs| == |ts| && forall i :: 0 <= i < |ts| ==> Slices(rs[i]) == Slices(ts[i])
    ensures Work(rs) == Work(ts)
  {
    if ts != [] {
      assert forall i :: 0 <= i < |ts| - 1 ==> rs[1..][i] == rs[i + 1] && ts[1..][i] == ts[i + 1];
      WorkSame(ts[1..], rs[1..]);
    }
  }

  lemma {:induction false} NoTicketsNoWork(ts: seq<Task>)
    requires forall i :: 0 <= i < |ts| ==> Slices(ts[i]) == 0
    ensures Work(ts) == 0
  {
    if ts != [] {
      assert forall i :: 0 <= i < |ts| - 1 ==> ts[1..][i] == ts[i + 1];
      NoTicketsNoWork(ts[1..]);
    }
  }

  lemma NothingInPlay(ts: seq<Task>, i: nat)
    requires NoneNegative(ts) && Total(ts) <= 0 && i < |ts|
    ensures Slices(ts[i]) == 0
  {
    BeforeGrows(ts, i, i);
    BeforeGrows(ts, i + 1, |ts|);
  }

  /** One slice for the winner; completing it takes its tickets out of play. */
  function Served(t: Task): (r: Task)
  {
    t.(remaining := t.remaining - 1, tickets := if t.remaining - 1 <= 0 then 0 else t.tickets)
  }

  /** How task `o` of the input may look during the run. */
  predicate Follows(o: Task, t: Task)
  {
    && t.id == o.id && t.burst == o.burst
    && if o.remaining > 0 && o.tickets > 0 then
         if t.remaining > 0 then t.tickets == o.tickets && t.remaining <= o.remaining
         else t.remaining == 0 && t.tickets == 0
       else t.remaining == o.remaining && t.tickets == o.tickets
  }

  // ---------------------------------------------------------------- the code

  lemma RangedAt(ts: seq<Task>, i: nat)
    requires i < |ts|
    ensures Ranged(ts)[i] == WithRange(ts[i], Before(ts, i))
  {
  }

  method AllocateTicketRanges(tasks: array<Task>)
    modifies tasks
    ensures tasks[..] == Ranged(old(tasks[..]))
  {
    hide Ranged;
    ghost var ts, rs := tasks[..], Ranged(tasks[..]);
    var counter := 1;
    for i := 0 to tasks.Length
      invariant counter == 1 + Before(ts, i)
      invariant forall j :: 0 <= j < i ==> tasks[j] == rs[j]
      invariant forall j :: i <= j < tasks.Length ==> tasks[j] == ts[j]
    {
      RangedAt(ts, i);
      if tasks[i].remaining > 0 {
        tasks[i] := tasks[i].(ticketStart := counter, ticketEnd := counter + tasks[i].tickets - 1);
        counter := counter + tasks[i].tickets;
      } else {
        tasks[i] := tasks[i].(ticketStart := 0, ticketEnd := 0);
      }
    }
  }

  method CalculateTotalTickets(tasks: array<Task>) returns (total: int)
    ensures total == Total(tasks[..])
  {
    total := 0;
    for i := 0 to tasks.Length
      invariant total == Before(tasks[..], i)
    {
      if tasks[i].remaining > 0 {
        total := total + tasks[i].tickets;
      }
    }
  }

  /** The inner loop of a round: the first incomplete task whose range has the ticket runs. */
  method Serve(tasks: array<Task>, ticket: int) returns (allCompleted: bool, served: bool, i: nat)
    modifies tasks
    ensures served <==> exists j :: 0 <= j < tasks.Length && Holds(old(tasks[j]), ticket)
    ensures served ==> i < tasks.Length && Holds(old(tasks[i]), ticket) && !allCompleted
    ensures served ==> forall j :: 0 <= j < i ==> !Holds(old(tasks[j]), ticket)
    ensures tasks[..] == if served then old(tasks[..])[i := Served(old(tasks[i]))] else old(tasks[..])
  {
    ghost var ts := tasks[..];
    allCompleted, served, i := true, false, 0;
    while i < tasks.Length
      invariant 0 <= i <= tasks.Length && tasks[..] == ts && !served
      invariant forall j :: 0 <= j < i ==> !Holds(ts[j], ticket)
    {
      assert tasks[i] == ts[i];
      if tasks[i].remaining > 0 {
        allCompleted := false;
        if ticket >= tasks[i].ticketStart && ticket <= tasks[i].ticketEnd {
          tasks[i] := tasks[i].(remaining := tasks[i].remaining - 1);
          if tasks[i].remaining <= 0 {
            tasks[i] := tasks[i].(tickets := 0);
          }
          assert tasks[..] == ts[i := Served(ts[i])];
          assert Holds(old(tasks[i]), ticket) by { assert ts[i] == old(tasks[i]); }
          assert forall j :: 0 <= j < i ==> ts[j] == old(tasks[j]);
          return allCompleted, true, i;
        }
      }
      i := i + 1;
    }
    assert forall j :: 0 <= j < tasks.Length ==> ts[j] == old(tasks[j]);
  }

  // ---------------------------------------------------------------- a round by the number drawn

  /** The first task from row `i` on that holds the ticket, or `|ts|`. */
  function HolderFrom(ts: seq<Task>, ticket: int, i: nat): (k: nat)
    requires i <= |ts|
    ensures i <= k <= |ts| && (k < |ts| ==> Holds(ts[k], ticket))
    ensures forall j :: i <= j < k ==> !Holds(ts[j], ticket)
    decreases |ts| - i
  {
    if i == |ts| || Holds(ts[i], ticket) then i else HolderFrom(ts, ticket, i + 1)
  }

  /** Who runs when the random number is `r`. */
  function WinnerOf(ts: seq<Task>, r: nat): (k: nat)
    requires Total(ts) > 0
    ensures k <= |ts|
  {
    HolderFrom(Ranged(ts), r % Total(ts) + 1, 0)
  }

  function Round(ts: seq<Task>, r: nat): (rs: seq<Task>)
    requires Total(ts) > 0
    ensures |rs| == |ts|
  {
    var k := WinnerOf(ts, r);
    if k < |ts| then Ranged(ts)[k := Served(Ranged(ts)[k])] else Ranged(ts)
  }

  /** The table after at most `n` rounds, the `k`-th with the `k`-th random number. */
  function Rounds(ts: seq<Task>, rand: nat -> nat, n: nat): (rs: seq<Task>)
    ensures |rs| == |ts|
  {
    if n == 0 then ts
    else
      var qs := Rounds(ts, rand, n - 1);
      if Total(qs) <= 0 then qs else Round(qs, rand(n - 1))
  }

  /** The lottery is fair: of as many random numbers in a row as there are tickets in play, exactly as
      many make a task run as it has tickets. */
  lemma LotteryIsFair(ts: seq<Task>, i: nat, base: nat, wins: set<nat>)
    requires NoneNegative(ts) && Total(ts) > 0 && i < |ts|
    requires forall r :: r in wins <==> base * Total(ts) <= r < (base + 1) * Total(ts) && WinnerOf(ts, r) == i
    ensures |wins| == InPlay(ts[i])
  {
    var n, lo, k := Total(ts), Before(ts, i), InPlay(ts[i]);
    BeforeGrows(ts, i, i);
    BeforeGrows(ts, i + 1, |ts|);
    assert Before(ts, i + 1) == lo + k;
    var range := Interval(base * n + lo, k);
    assert (base + 1) * n == base * n + n;
    forall r: nat
      ensures r in wins <==> r in range
    {
      if base * n <= r < base * n + n {
        Remainder(r, base, n);
        WinsExactly(ts, r - base * n, i);
      }
    }
    assert wins == range;
  }

  lemma Remainder(r: nat, base: nat, n: nat)
    requires n > 0 && base * n <= r < base * n + n
    ensures r % n == r - base * n
  {
    var q := r - base * n;
    assert r == base * n + q;
    ModUnique(r, n, base, q);
  }

  lemma ModUnique(r: nat, n: nat, q: nat, m: nat)
    requires n > 0 && r == q * n + m && m < n
    ensures r % n == m
  {
    var p := r / n;
    assert r == p * n + r % n;
    if p < q { MoreMultiples(p, q, n); }
    if p > q { MoreMultiples(q, p, n); }
  }

  lemma MoreMultiples(p: int, q: int, n: nat)
    requires p < q
    ensures q * n >= p * n + n
  {
    assert q * n >= (p + 1) * n == p * n + n;
  }

  lemma WinsExactly(ts: seq<Task>, m: nat, i: nat)
    requires NoneNegative(ts) && i < |ts| && m < Total(ts)
    ensures HolderFrom(Ranged(ts), m + 1, 0) == i <==> Before(ts, i) <= m < Before(ts, i) + InPlay(ts[i])
  {
    var k := HolderFrom(Ranged(ts), m + 1, 0);
    if Holds(Ranged(ts)[i], m + 1) && k < i { OneHolder(ts, m + 1, k, i); }
  }

  ghost predicate AllFollow(os: seq<Task>, ts: seq<Task>)
  {
    |os| == |ts| && forall i :: 0 <= i < |os| ==> Follows(os[i], ts[i])
  }

  /** A round with tickets in play serves one task, whatever is drawn, and one slice of work. */
  lemma RoundServes(os: seq<Task>, ts: seq<Task>, ticket: int)
    requires AllFollow(os, ts) && 1 <= ticket <= Total(ts)
    ensures AllFollow(os, Ranged(ts)) && Work(Ranged(ts)) == Work(ts)
    ensures exists i :: 0 <= i < |ts| && Holds(Ranged(ts)[i], ticket)
    ensures forall i :: 0 <= i < |ts| && Holds(Ranged(ts)[i], ticket) ==>
              var rs := Ranged(ts)[i := Served(Ranged(ts)[i])]; AllFollow(os, rs) && Work(rs) == Work(ts) - 1
  {
    hide Work, Follows, Served, Holds, Ranged;
    var h := Holder(ts, ticket, |ts|);
    RangedFollows(os, ts);
    forall i | 0 <= i < |ts| && Holds(Ranged(ts)[i], ticket)
      ensures var rs := Ranged(ts)[i := Served(Ranged(ts)[i])]; AllFollow(os, rs) && Work(rs) == Work(ts) - 1
    {
      ServesOne(os, ts, i, ticket);
    }
  }

  lemma RangedFollows(os: seq<Task>, ts: seq<Task>)
    requires AllFollow(os, ts)
    ensures AllFollow(os, Ranged(ts)) && Work(Ranged(ts)) == Work(ts)
  {
    hide Work, Before;
    forall i | 0 <= i < |ts|
      ensures Follows(os[i], Ranged(ts)[i]) && Slices(Ranged(ts)[i]) == Slices(ts[i])
    {
      assert Follows(os[i], ts[i]);
    }
    hide Ranged;
    WorkSame(ts, Ranged(ts));
  }

  lemma ServesOne(os: seq<Task>, ts: seq<Task>, i: nat, ticket: int)
    requires AllFollow(os, ts) && i < |ts| && Holds(Ranged(ts)[i], ticket)
    ensures var rs := Ranged(ts)[i := Served(Ranged(ts)[i])]; AllFollow(os, rs) && Work(rs) == Work(ts) - 1
  {
    hide Work, Before;
    RangedFollows(os, ts);
    var r := Ranged(ts)[i];
    assert r.tickets > 0 && r.remaining > 0;
    assert Follows(os[i], r);
    assert Follows(os[i], Served(r)) && Slices(Served(r)) == Slices(r) - 1;
    hide Ranged, Follows, Served, Slices;
    WorkUpdate(Ranged(ts), i, Served(r));
  }

  lemma StartFollows(os: seq<Task>)
    ensures AllFollow(os, os)
  {
  }

  /** Tickets below zero, in play among the first `n` tasks. */
  function Debt(ts: seq<Task>, n: nat): (c: nat)
    requires n <= |ts|
  {
    if n == 0 then 0 else Debt(ts, n - 1) + if InPlay(ts[n - 1]) < 0 then -InPlay(ts[n - 1]) else 0
  }

  /** Every task that can run has more tickets than all tasks together are below zero. */
  ghost predicate Solvent(ts: seq<Task>)
  {
    forall i :: 0 <= i < |ts| && Slices(ts[i]) > 0 ==> ts[i].tickets > Debt(ts, |ts|)
  }

  lemma {:induction false} NoDebt(ts: seq<Task>, n: nat)
    requires NoneNegative(ts) && n <= |ts|
    ensures Debt(ts, n) == 0
  {
    if n > 0 { NoDebt(ts, n - 1); }
  }

  lemma {:induction false} DebtStays(os: seq<Task>, ts: seq<Task>, n: nat)
    requires AllFollow(os, ts) && n <= |ts|
    ensures Debt(ts, n) == Debt(os, n)
  {
    if n > 0 {
      DebtStays(os, ts, n - 1);
      assert Follows(os[n - 1], ts[n - 1]);
    }
  }

  lemma {:induction false} TotalAtLeast(ts: seq<Task>, i: nat, n: nat)
    requires n <= |ts| && (i < n ==> InPlay(ts[i]) >= 0)
    ensures Before(ts, n) >= (if i < n then InPlay(ts[i]) else 0) - Debt(ts, n)
  {
    if n > 0 { TotalAtLeast(ts, i, n - 1); }
  }

  /** The tasks that could run are complete, and the others were never run. */
  ghost predicate HoldersDone(os: seq<Task>, ts: seq<Task>)
  {
    && |os| == |ts|
    && forall i :: 0 <= i < |ts| ==> ts[i].remaining == if Slices(os[i]) > 0 then 0 else os[i].remaining
  }

  ghost predicate AllDone(ts: seq<Task>)
  {
    forall i :: 0 <= i < |ts| ==> ts[i].remaining <= 0
  }

  ghost predicate EveryoneHolds(ts: seq<Task>)
  {
    forall i :: 0 <= i < |ts| && ts[i].remaining > 0 ==> ts[i].tickets > 0
  }

  lemma RunEnds(os: seq<Task>, ts: seq<Task>)
    requires Solvent(os) && AllFollow(os, ts) && Total(ts) <= 0
    ensures Work(ts) == 0 && HoldersDone(os, ts)
  {
    forall i | 0 <= i < |ts|
      ensures Slices(ts[i]) == 0 && Follows(os[i], ts[i])
    {
      assert Follows(os[i], ts[i]);
      if Slices(ts[i]) > 0 {
        DebtStays(os, ts, |ts|);
        TotalAtLeast(ts, i, |ts|);
      }
    }
    NoTicketsNoWork(ts);
  }

  lemma DoneExactly(os: seq<Task>, ts: seq<Task>)
    requires HoldersDone(os, ts)
    ensures AllDone(ts) <==> EveryoneHolds(os)
  {
    hide Slices;
    forall i | 0 <= i < |ts|
      ensures ts[i].remaining <= 0 <==> (os[i].remaining > 0 ==> os[i].tickets > 0)
    {
      SlicesIs(os[i]);
    }
  }

  lemma SlicesIs(t: Task)
    ensures Slices(t) > 0 <==> t.remaining > 0 && t.tickets > 0
  {
  }

  /** Whatever is drawn, the loop ends when no tickets are left in play, and every slice went to a
      task that holds tickets. If none is below zero, or they outweigh no task, each such task is
      then complete, and the others were never run. */
  method LotteryScheduling(tasks: array<Task>, rand: nat -> nat) returns (time: nat)
    modifies tasks
    ensures tasks[..] == Rounds(old(tasks[..]), rand, time)
    ensures AllFollow(old(tasks[..]), tasks[..]) && Total(tasks[..]) <= 0
    ensures time == Work(old(tasks[..])) - Work(tasks[..])
    ensures NoneNegative(old(tasks[..])) ==> Solvent(old(tasks[..]))
    ensures Solvent(old(tasks[..])) ==> time == Work(old(tasks[..])) && HoldersDone(old(tasks[..]), tasks[..])
    ensures Solvent(old(tasks[..])) ==> (AllDone(tasks[..]) <==> EveryoneHolds(old(tasks[..])))
  {
    hide Total, Ranged, Work, Follows, Served, Holds, Solvent, NoneNegative, HoldersDone, AllDone, EveryoneHolds, WinnerOf;
    ghost var os := tasks[..];
    StartFollows(os);
    NoneNegativeSolvent(os);
    var total := CalculateTotalTickets(tasks);
    time := 0;
    var draws := 0;
    while total > 0
      invariant AllFollow(os, tasks[..]) && total == Total(tasks[..])
      invariant time + Work(tasks[..]) == Work(os)
      invariant draws == time && tasks[..] == Rounds(os, rand, draws)
      decreases Work(tasks[..])
    {
      ghost var ts := tasks[..];
      AllocateTicketRanges(tasks);
      var winning := rand(draws) % total + 1;
      draws := draws + 1;
      RoundServes(os, ts, winning);
      WinnerIs(ts, rand(draws - 1));
      var allCompleted, served, i := Serve(tasks, winning);
      ServedIsWinner(ts, rand(draws - 1), i);
      if served {
        time := time + 1;
      }
      total := CalculateTotalTickets(tasks);
      if allCompleted {
        break;
      }
    }
    if Solvent(os) {
      RunEnds(os, tasks[..]);
      DoneExactly(os, tasks[..]);
    }
  }

  lemma WinnerIs(ts: seq<Task>, r: nat)
    requires Total(ts) > 0
    ensures var k := WinnerOf(ts, r);
            && (k < |ts| ==> Holds(Ranged(ts)[k], r % Total(ts) + 1))
            && forall j :: 0 <= j < k ==> !Holds(Ranged(ts)[j], r % Total(ts) + 1)
  {
  }

  lemma ServedIsWinner(ts: seq<Task>, r: nat, i: nat)
    requires Total(ts) > 0 && i < |ts| && Holds(Ranged(ts)[i], r % Total(ts) + 1)
    requires forall j :: 0 <= j < i ==> !Holds(Ranged(ts)[j], r % Total(ts) + 1)
    ensures WinnerOf(ts, r) == i
  {
  }

  lemma NoneNegativeSolvent(os: seq<Task>)
    ensures NoneNegative(os) ==> Solvent(os)
  {
    if NoneNegative(os) { NoDebt(os, |os|); }
  }
}
