/** kernel/proc.c, schedule: the choice of the next process, as one atomic step over the
    process table. */
module Scheduler {
  import opened ProcTable

  datatype Slot = Slot(ticks: int, priority: int, flags: set<Flag>)

  predicate Runnable(s: Slot) {
    s.flags == {}
  }

  predicate Candidate(s: Slot) {
    s.ticks > 0 && Runnable(s)
  }

  /** p is the first process among those with the most ticks left. */
  ghost predicate IsBest(slots: seq<Slot>, p: int) {
    && 0 <= p < |slots| && Candidate(slots[p])
    && forall q :: 0 <= q < |slots| && Candidate(slots[q]) ==>
         slots[q].ticks <= slots[p].ticks && (q < p ==> slots[q].ticks < slots[p].ticks)
  }

  lemma BestIsUnique(slots: seq<Slot>, p: int, q: int)
    requires IsBest(slots, p) && IsBest(slots, q)
    ensures p == q
  {
    assert slots[p].ticks == slots[q].ticks;
  }

  /** Every runnable process gets its priority back as ticks. */
  function Refilled(slots: seq<Slot>): (r: seq<Slot>)
    ensures |r| == |slots|
    ensures forall i :: 0 <= i < |slots| ==>
      r[i] == if Runnable(slots[i]) then slots[i].(ticks := slots[i].priority) else slots[i]
  {
    seq(|slots|, i requires 0 <= i < |slots| =>
      if Runnable(slots[i]) then slots[i].(ticks := slots[i].priority) else slots[i])
  }

  ghost predicate SomeCandidate(slots: seq<Slot>) {
    exists i :: 0 <= i < |slots| && Candidate(slots[i])
  }

  class Processor {
    const procs: array<Slot>
    var ready: nat

    constructor (n: nat)
      requires n > 0
      ensures fresh(procs) && procs.Length == n && ready == 0
    {
      procs := new Slot[n](_ => Slot(0, 0, {}));
      ready := 0;
    }

    /** One pass over the table for the greatest tick count. */
    method Scan() returns (greatest: int, best: nat)
      ensures greatest >= 0
      ensures greatest > 0 <==> SomeCandidate(procs[..])
      ensures greatest > 0 ==> IsBest(procs[..], best) && greatest == procs[best].ticks
    {
      greatest, best := 0, 0;
      var i := 0;
      while i < procs.Length
        invariant 0 <= i <= procs.Length && greatest >= 0
        invariant greatest == 0 ==> forall q :: 0 <= q < i ==> !Candidate(procs[q])
        invariant greatest > 0 ==> best < i && Candidate(procs[best]) && greatest == procs[best].ticks
        invariant greatest > 0 ==> forall q :: 0 <= q < i && Candidate(procs[q]) ==>
                    procs[q].ticks <= greatest && (q < best ==> procs[q].ticks < greatest)
      {
        if procs[i].ticks > 0 && procs[i].flags == {} && procs[i].ticks > greatest {
          greatest, best := procs[i].ticks, i;
        }
        i := i + 1;
      }
      if greatest > 0 {
        assert Candidate(procs[..][best]);
      }
    }

    method Refill()
      modifies procs
      ensures procs[..] == Refilled(old(procs[..]))
    {
      var i := 0;
      while i < procs.Length
        invariant 0 <= i <= procs.Length
        invariant forall j :: 0 <= j < i ==> procs[j] == Refilled(old(procs[..]))[j]
        invariant forall j :: i <= j < procs.Length ==> procs[j] == old(procs[j])
      {
        if procs[i].flags == {} {
          procs[i] := procs[i].(ticks := procs[i].priority);
        }
        i := i + 1;
      }
    }

    /** Keeps the current process while it may run; otherwise picks the best candidate, after
        one refill if there was none.  The source loops for ever when a refill gives no
        candidate either, which the precondition excludes. */
    method Schedule()
      requires ready < procs.Length
      requires SomeCandidate(procs[..]) || SomeCandidate(Refilled(procs[..]))
      modifies this, procs
      ensures procs[..] == if SomeCandidate(old(procs[..])) then old(procs[..]) else Refilled(old(procs[..]))
      ensures ready < procs.Length && Candidate(procs[ready])
      ensures if Candidate(old(procs[ready])) then ready == old(ready) else IsBest(procs[..], ready)
    {
      if procs[ready].ticks > 0 && procs[ready].flags == {} {
        assert Candidate(procs[..][ready]);
        return;
      }
      var rounds := 0;
      while true
        invariant ready == old(ready) && 0 <= rounds <= 1
        invariant rounds == 0 ==> procs[..] == old(procs[..])
        invariant rounds == 1 ==> !SomeCandidate(old(procs[..])) && procs[..] == Refilled(old(procs[..]))
        decreases 1 - rounds
      {
        var greatest, best := Scan();
        if greatest <= 0 {
          Refill();
          rounds := rounds + 1;
        } else {
          ready := best;
          return;
        }
      }
    }
  }

  /** Whatever the flags do in between, a process that was shut down (no priority, no ticks)
      is never the best candidate, before or after a refill. */
  lemma ShutDownNeverPicked(slots: seq<Slot>, p: int, q: int)
    requires 0 <= q < |slots| && slots[q].priority <= 0 && slots[q].ticks <= 0
    requires IsBest(slots, p) || IsBest(Refilled(slots), p)
    ensures p != q
    ensures Refilled(slots)[q].priority <= 0 && Refilled(slots)[q].ticks <= 0
  {
  }

  /** A refill is needed again exactly when no runnable process has a priority to give. */
  lemma RefillHelps(slots: seq<Slot>)
    ensures SomeCandidate(Refilled(slots)) <==>
            exists i :: 0 <= i < |slots| && Runnable(slots[i]) && slots[i].priority > 0
  {
    if i :| 0 <= i < |slots| && Runnable(slots[i]) && slots[i].priority > 0 {
      assert Candidate(Refilled(slots)[i]);
    }
  }
}
