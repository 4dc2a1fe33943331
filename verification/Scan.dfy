/** The parallel floor-pruned scan (scanMatchesFloor in internal/pattern/scan.go). Every access to a
    shared atomic is one step of one worker, the scheduler picks any unfinished worker, and the
    cancellation token may be raised between any two steps. */
module Scan {
  import opened Base
  import opened Coverage
  import opened WorkQueue

  /** Where a floor-scan worker stands: before the stop test, before the claim, before the token
      test, inside a chunk, before each publication, or finished. */
  datatype Pc =
    | Top
    | Claim
    | Check(c: nat)
    | Line(c: nat, i: nat, miss: nat)
    | Store(c: nat, miss: nat)
    | Add(c: nat, miss: nat)
    | Stop
    | AbortHit(c: nat)
    | AbortStop
    | Done
  {
    /** The worker has claimed chunk c and not yet given it up. */
    predicate Holding() { Check? || Line? || Store? || Add? || AbortHit? }
  }

  /** The state the workers share, each worker's position, and two history variables: who claimed
      each chunk, and which chunks' misses have reached the shared counter. */
  datatype Shared = Shared(
    next: nat, misses: nat, stop: bool, hitCtlFlag: bool, aborted: bool,
    chunkMiss: seq<int>, pc: seq<Pc>, owner: seq<nat>, added: seq<bool>)

  datatype FloorJob = FloorJob(re: Matcher, lines: seq<string>, budget: nat, grid: Grid) {

    ghost predicate Valid() { grid.Valid() && grid.n == |lines| && budget > 0 }

    function Init(workers: nat): Shared
    {
      var k := grid.chunks;
      Shared(0, 0, false, false, false,
             seq(k, _ => 0), seq(workers, _ => Top), seq(k, _ => 0), seq(k, _ => false))
    }

    function ChunkMisses(c: nat): nat
      requires grid.n == |lines|
    {
      Misses(re, lines, grid.Start(c), grid.Start(c + 1))
    }

    /** Misses of the chunks marked in `marks` among the first k. */
    ghost function AddedMisses(marks: seq<bool>, k: nat): (s: nat)
      requires grid.n == |lines| && k <= |marks|
    {
      if k == 0 then 0 else AddedMisses(marks, k - 1) + if marks[k - 1] then ChunkMisses(k - 1) else 0
    }

    lemma {:induction false} AddOne(marks: seq<bool>, c: nat, k: nat)
      requires grid.n == |lines|
      requires c < |marks| && k <= |marks| && !marks[c]
      ensures AddedMisses(marks[c := true], k) == AddedMisses(marks, k) + if c < k then ChunkMisses(c) else 0
    {
      if k > 0 { AddOne(marks, c, k - 1); }
    }

    /** When exactly the first m chunks are marked the sum is the misses of that prefix. */
    lemma {:induction false} AddedPrefix(marks: seq<bool>, m: nat, k: nat)
      requires Valid() && m <= |marks| && k <= |marks| == grid.chunks
      requires forall c :: 0 <= c < |marks| ==> (marks[c] <==> c < m)
      ensures AddedMisses(marks, k) == Misses(re, lines, 0, grid.Start(Min(m, k)))
    {
      if k > 0 {
        AddedPrefix(marks, m, k - 1);
        if k <= m {
          MissesSplit(re, lines, 0, grid.Start(k - 1), grid.Start(k));
        }
      }
    }

    lemma MissesThrough(c: nat)
      requires Valid() && c < grid.chunks
      ensures Misses(re, lines, 0, grid.Start(c + 1)) == Misses(re, lines, 0, grid.Start(c)) + ChunkMisses(c)
    {
      assert grid.NonEmpty(c);
      MissesSplit(re, lines, 0, grid.Start(c), grid.Start(c + 1));
    }

    ghost predicate Shape(s: Shared)
    {
      |s.owner| == |s.added| == |s.chunkMiss| == grid.chunks
    }

    /** What a worker's position says about the shared state. */
    ghost predicate WorkerOk(s: Shared, w: nat)
      requires Valid() && Shape(s) && w < |s.pc|
    {
      var p := s.pc[w];
      && (p.Holding() ==> p.c < s.next && p.c < grid.chunks && s.owner[p.c] == w && !s.added[p.c])
      && (p.Line? ==> grid.Start(p.c) <= p.i <= grid.Start(p.c + 1)
                      && p.miss == Misses(re, lines, grid.Start(p.c), p.i))
      && (p.Store? || p.Add? ==> p.miss == ChunkMisses(p.c))
      && (p.Add? ==> s.chunkMiss[p.c] == p.miss)
      && (p.Stop? ==> s.misses >= budget)
      && (p.AbortHit? ==> s.aborted)
      && (p.AbortStop? ==> s.hitCtlFlag)
      && (p.Done? ==> s.stop || s.next >= grid.chunks)
    }

    /** A claimed chunk has been added in full, or its claimer still holds it, or a worker saw
        the token raised. */
    ghost predicate ChunkOk(s: Shared, c: nat)
      requires Valid() && Shape(s) && c < |s.added|
    {
      && (s.added[c] ==> c < s.next && s.chunkMiss[c] == ChunkMisses(c))
      && (c < s.next && !s.added[c] ==>
            s.hitCtlFlag || (s.owner[c] < |s.pc| && s.pc[s.owner[c]].Holding() && s.pc[s.owner[c]].c == c))
    }

    ghost predicate Inv(s: Shared) {
      && Valid() && Shape(s)
      && (forall w :: 0 <= w < |s.pc| ==> WorkerOk(s, w))
      && (forall c :: 0 <= c < |s.added| ==> ChunkOk(s, c))
      && s.misses == AddedMisses(s.added, grid.chunks)
      && (s.hitCtlFlag ==> s.aborted)
      && (s.stop ==> s.hitCtlFlag || s.misses >= budget)
    }

    lemma InitInv(workers: nat)
      requires Valid()
      ensures Inv(Init(workers))
    {
      AddedPrefix(Init(workers).added, 0, grid.chunks);
    }

    lemma AbortKeepsInv(s: Shared)
      requires Inv(s)
      ensures Inv(s.(aborted := true))
    {
      forall w | 0 <= w < |s.pc| ensures WorkerOk(s.(aborted := true), w) {
        assert WorkerOk(s, w);
      }
      forall c | 0 <= c < |s.added| ensures ChunkOk(s.(aborted := true), c) {
        assert ChunkOk(s, c);
      }
    }

    /** What a step of worker w leaves alone (the other workers, the chunks it does not hold),
        and what it re-establishes: its own position and every chunk's history. */
    ghost predicate Stepped(s: Shared, t: Shared, w: nat)
      requires Valid() && Shape(s) && w < |s.pc|
    {
      && Shape(t) && |t.pc| == |s.pc|
      && t.next >= s.next && t.misses >= s.misses
      && (s.stop ==> t.stop) && (s.hitCtlFlag ==> t.hitCtlFlag) && s.aborted == t.aborted
      && (forall v {:trigger t.pc[v]} :: 0 <= v < |s.pc| && v != w ==> t.pc[v] == s.pc[v])
      && (forall c {:trigger t.owner[c]} :: 0 <= c < grid.chunks && c != s.next ==> t.owner[c] == s.owner[c])
      && (forall c {:trigger t.added[c]} :: 0 <= c < grid.chunks && s.owner[c] != w ==>
            t.added[c] == s.added[c] && t.chunkMiss[c] == s.chunkMiss[c])
      && WorkerOk(t, w)
      && (forall c :: 0 <= c < grid.chunks && ChunkOk(s, c) ==> ChunkOk(t, c))
    }

    ghost predicate Ready(s: Shared, w: nat) {
      Valid() && Shape(s) && w < |s.pc| && WorkerOk(s, w)
    }

    // One function per access to the shared state.

    function LoadStop(s: Shared, w: nat): (t: Shared)
      requires Ready(s, w) && s.pc[w].Top?
      ensures Stepped(s, t, w) && t == s.(pc := t.pc) && (t.pc[w].Done? <==> s.stop)
    {
      s.(pc := s.pc[w := if s.stop then Done else Claim])
    }

    function ClaimChunk(s: Shared, w: nat): (t: Shared)
      requires Ready(s, w) && s.pc[w].Claim? && (s.next < grid.chunks ==> !s.added[s.next])
      ensures Stepped(s, t, w) && t.next == s.next + 1 && t == s.(next := t.next, owner := t.owner, pc := t.pc)
      ensures if s.next < grid.chunks then t.pc[w].Holding() && t.pc[w].c == s.next && t.owner[s.next] == w
              else t.pc[w].Done? && t.owner == s.owner
    {
      if s.next < grid.chunks then TakeChunk(s, w) else s.(next := s.next + 1, pc := s.pc[w := Done])
    }

    function TakeChunk(s: Shared, w: nat): (t: Shared)
      requires Ready(s, w) && s.pc[w].Claim? && s.next < grid.chunks && !s.added[s.next]
      ensures Stepped(s, t, w) && t.next == s.next + 1 && t == s.(next := t.next, owner := t.owner, pc := t.pc)
      ensures t.pc[w].Holding() && t.pc[w].c == s.next && t.owner[s.next] == w
    {
      s.(next := s.next + 1, owner := s.owner[s.next := w], pc := s.pc[w := Check(s.next)])
    }

    function ReadToken(s: Shared, w: nat): (t: Shared)
      requires Ready(s, w) && s.pc[w].Check?
      ensures Stepped(s, t, w) && t == s.(pc := t.pc) && t.pc[w].Holding() && t.pc[w].c == s.pc[w].c
      ensures if s.aborted then t.pc[w].AbortHit? else t.pc[w].Line? && t.pc[w].miss == 0 && grid.Contains(t.pc[w].c, t.pc[w].i)
    {
      var c := s.pc[w].c;
      assert grid.NonEmpty(c);
      s.(pc := s.pc[w := if s.aborted then AbortHit(c) else Line(c, grid.Start(c), 0)])
    }

    function MatchLine(s: Shared, w: nat): (t: Shared)
      requires Ready(s, w) && s.pc[w].Line?
      ensures Stepped(s, t, w)
    {
      var Line(c, i, miss) := s.pc[w];
      if i == grid.Start(c + 1) then s.(pc := s.pc[w := Store(c, miss)])
      else s.(pc := s.pc[w := Line(c, i + 1, if re(lines[i]) then miss else miss + 1)])
    }

    function StoreMisses(s: Shared, w: nat): (t: Shared)
      requires Ready(s, w) && s.pc[w].Store?
      ensures Stepped(s, t, w) && t == s.(chunkMiss := t.chunkMiss, pc := t.pc)
      ensures forall d {:trigger t.chunkMiss[d]} :: 0 <= d < grid.chunks ==>
                t.chunkMiss[d] == if d == s.pc[w].c then ChunkMisses(d) else s.chunkMiss[d]
    {
      var Store(c, miss) := s.pc[w];
      s.(chunkMiss := s.chunkMiss[c := miss], pc := s.pc[w := Add(c, miss)])
    }

    function AddMisses(s: Shared, w: nat): (t: Shared)
      requires Ready(s, w) && s.pc[w].Add?
      ensures Stepped(s, t, w)
      ensures var c := s.pc[w].c;
              s.owner[c] == w && !s.added[c] && t.added[c] && t.misses == s.misses + ChunkMisses(c)
      ensures t.pc[w].Stop? <==> t.misses >= budget
    {
      var Add(c, miss) := s.pc[w];
      s.(misses := s.misses + miss, added := s.added[c := true],
         pc := s.pc[w := if s.misses + miss >= budget then Stop else Top])
    }

    /** The remaining positions: raise `stop`, or give up after seeing the token raised. */
    function Finish(s: Shared, w: nat): (t: Shared)
      requires Ready(s, w) && (s.pc[w].Stop? || s.pc[w].AbortHit? || s.pc[w].AbortStop? || s.pc[w].Done?)
      ensures Stepped(s, t, w)
    {
      match s.pc[w]
      case Stop => s.(stop := true, pc := s.pc[w := Top])
      case AbortHit(_) => s.(hitCtlFlag := true, pc := s.pc[w := AbortStop])
      case AbortStop => s.(stop := true, pc := s.pc[w := Done])
      case Done => s
    }

    /** One step of worker w. */
    function Step(s: Shared, w: nat): (t: Shared)
      requires Inv(s) && w < |s.pc|
      ensures Stepped(s, t, w)
    {
      assert WorkerOk(s, w);
      assert s.next < grid.chunks ==> ChunkOk(s, s.next);
      match s.pc[w]
      case Top => LoadStop(s, w)
      case Claim => ClaimChunk(s, w)
      case Check(_) => ReadToken(s, w)
      case Line(_, _, _) => MatchLine(s, w)
      case Store(_, _) => StoreMisses(s, w)
      case Add(_, _) => AddMisses(s, w)
      case _ => Finish(s, w)
    }

    lemma OtherWorker(s: Shared, t: Shared, w: nat, v: nat)
      requires Valid() && Shape(s) && w < |s.pc| && v < |s.pc| && v != w
      requires WorkerOk(s, v) && Stepped(s, t, w)
      ensures WorkerOk(t, v)
    {
      var p := s.pc[v];
      if p.Holding() {
        assert t.owner[p.c] == v && t.added[p.c] == s.added[p.c];
      }
    }

    /** Every step of every worker keeps the invariant. */
    lemma StepKeepsInv(s: Shared, w: nat)
      requires Inv(s) && w < |s.pc|
      ensures Inv(Step(s, w))
    {
      var t := Step(s, w);
      assert WorkerOk(s, w);
      if s.pc[w].Add? { AddOne(s.added, s.pc[w].c, grid.chunks); }
      forall v | 0 <= v < |t.pc| && v != w ensures WorkerOk(t, v) {
        OtherWorker(s, t, w, v);
      }
    }

    // Termination: every step leaves less work, whatever the schedule.

    ghost function Rank(p: Pc): nat
      requires grid.n == |lines|
    {
      match p
      case Done => 0
      case Claim => 1
      case AbortStop => 1
      case AbortHit(_) => 2
      case Top => 2
      case Stop => 3
      case Add(_, _) => 4
      case Store(_, _) => 5
      case Line(c, i, _) => if i < grid.Start(c + 1) then 6 + grid.Start(c + 1) - i else 6
      case Check(_) => 7 + grid.chunk
    }

    ghost function Ranks(ps: seq<Pc>): nat
      requires grid.n == |lines|
    {
      if ps == [] then 0 else Rank(ps[0]) + Ranks(ps[1..])
    }

    lemma {:induction false} RanksUpdate(ps: seq<Pc>, w: nat, p: Pc)
      requires grid.n == |lines| && w < |ps|
      ensures Ranks(ps[w := p]) + Rank(ps[w]) == Ranks(ps) + Rank(p)
    {
      if w > 0 {
        assert ps[w := p][1..] == ps[1..][w - 1 := p];
        RanksUpdate(ps[1..], w - 1, p);
      } else {
        assert ps[w := p][1..] == ps[1..];
      }
    }

    ghost function Unclaimed(s: Shared): nat { if s.next < grid.chunks then grid.chunks - s.next else 0 }

    ghost function Work(s: Shared): nat
      requires grid.n == |lines|
    {
      Unclaimed(s) * (grid.chunk + 8) + Ranks(s.pc) + if s.aborted then 0 else 1
    }

    /** A step of an unfinished worker leaves less work, so no schedule runs forever. */
    lemma StepShrinks(s: Shared, w: nat)
      requires Inv(s) && w < |s.pc| && !s.pc[w].Done?
      ensures Work(Step(s, w)) < Work(s)
    {
      var t := Step(s, w);
      assert WorkerOk(s, w);
      assert t.pc == s.pc[w := t.pc[w]];
      RanksUpdate(s.pc, w, t.pc[w]);
      if s.pc[w].Claim? && s.next < grid.chunks {
        assert Unclaimed(s) == Unclaimed(t) + 1;
        assert Unclaimed(s) * (grid.chunk + 8) == Unclaimed(t) * (grid.chunk + 8) + (grid.chunk + 8);
      } else {
        assert Unclaimed(t) == Unclaimed(s);
        RankDrops(s, w);
      }
    }

    lemma RankDrops(s: Shared, w: nat)
      requires Inv(s) && w < |s.pc| && !s.pc[w].Done? && !(s.pc[w].Claim? && s.next < grid.chunks)
      ensures Rank(Step(s, w).pc[w]) < Rank(s.pc[w])
    {
      assert WorkerOk(s, w);
    }

    // The result.

    ghost predicate Finished(s: Shared) { forall w :: 0 <= w < |s.pc| ==> s.pc[w].Done? }

    /** When all workers have finished unaborted, the claimed chunks are a completed prefix whose
        misses were all counted, and a prefix short of the whole input exhausts the budget. */
    lemma FinishedPrefix(s: Shared)
      requires Inv(s) && Finished(s) && s.pc != [] && !s.hitCtlFlag
      ensures var claimed := Min(s.next, grid.chunks);
              && (forall c :: 0 <= c < claimed ==> s.chunkMiss[c] == ChunkMisses(c))
              && (claimed < grid.chunks ==> Misses(re, lines, 0, grid.Start(claimed)) >= budget)
    {
      var claimed := Min(s.next, grid.chunks);
      forall c | 0 <= c < grid.chunks ensures s.added[c] <==> c < claimed {
        assert ChunkOk(s, c);
      }
      forall c | 0 <= c < claimed ensures s.chunkMiss[c] == ChunkMisses(c) {
        assert ChunkOk(s, c);
      }
      AddedPrefix(s.added, claimed, grid.chunks);
      assert WorkerOk(s, 0);
    }
  }

  /** Runs the workers: the loop is the scheduler. It lets any unfinished worker take its next
      step, or raises the cancellation token, until every worker has returned. */
  method RunWorkers(job: FloorJob, workers: nat, cancellable: bool) returns (s: Shared)
    requires job.Valid() && workers > 0
    ensures job.Inv(s) && job.Finished(s) && s.pc != []
    ensures !cancellable ==> !s.hitCtlFlag
  {
    s := job.Init(workers);
    job.InitInv(workers);
    while exists w :: 0 <= w < |s.pc| && !s.pc[w].Done?
      invariant job.Inv(s) && s.pc != []
      invariant !cancellable ==> !s.aborted
      decreases job.Work(s)
    {
      var raise: bool := *;
      if raise && cancellable && !s.aborted {
        job.AbortKeepsInv(s);
        s := s.(aborted := true);
      } else {
        var w :| 0 <= w < |s.pc| && !s.pc[w].Done?;
        job.StepKeepsInv(s, w);
        job.StepShrinks(s, w);
        s := job.Step(s, w);
      }
    }
  }

  /** The line of chunk [start, end) holding the budget-th miss. */
  method RescanChunk(re: Matcher, lines: seq<string>, budget: nat, start: nat, end: nat, seenBefore: nat)
    returns (i: nat)
    requires start <= end <= |lines|
    requires seenBefore == Misses(re, lines, 0, start) < budget <= Misses(re, lines, 0, end)
    ensures HoldsMiss(re, lines, budget, i)
  {
    var seen := seenBefore;
    i := start;
    while i < end
      invariant start <= i <= end && seen == Misses(re, lines, 0, i) < budget
    {
      if !re(lines[i]) {
        seen := seen + 1;
        if seen == budget {
          return;
        }
      }
      i := i + 1;
    }
    assert false;
  }

  /** The pruned count, once the misses reach the budget in chunk c. */
  method LocateInChunk(job: FloorJob, c: nat, seen: nat, ghost floor: nat) returns (r: nat)
    requires job.Valid() && c < job.grid.chunks && job.budget == |job.lines| - floor
    requires seen == Misses(job.re, job.lines, 0, job.grid.Start(c)) < job.budget <= seen + job.ChunkMisses(c)
    ensures r == PrunedCount(job.re, job.lines, floor)
  {
    var start, end := job.grid.Start(c), job.grid.Start(c + 1);
    job.grid.Ordered(c, c + 1);
    job.MissesThrough(c);
    var i := RescanChunk(job.re, job.lines, job.budget, start, end, seen);
    PrunedAtMiss(job.re, job.lines, floor, i);
    return i + 1 - job.budget;
  }

  /** Walks the completed chunks in order and rescans the one holding the budget-th miss. */
  method LocateMiss(job: FloorJob, claimed: nat, chunkMiss: seq<int>, ghost floor: nat) returns (r: nat)
    requires job.Valid() && claimed <= job.grid.chunks == |chunkMiss| && job.budget == |job.lines| - floor
    requires forall c :: 0 <= c < claimed ==> chunkMiss[c] == job.ChunkMisses(c)
    requires claimed < job.grid.chunks ==>
               Misses(job.re, job.lines, 0, job.grid.Start(claimed)) >= job.budget
    ensures r == PrunedCount(job.re, job.lines, floor)
  {
    var seen := 0;
    for c := 0 to claimed
      invariant seen == Misses(job.re, job.lines, 0, job.grid.Start(c)) < job.budget
    {
      job.MissesThrough(c);
      if seen + chunkMiss[c] >= job.budget {
        r := LocateInChunk(job, c, seen, floor);
        return;
      }
      seen := seen + chunkMiss[c];
    }
    PrunedWithinBudget(job.re, job.lines, floor);
    return |job.lines| - seen;
  }

  /** scanMatchesFloor returns, for every schedule, number of workers and chunk size, exactly what
      the sequential scan returns; a scan that saw its token raised reports itself aborted. */
  method ScanMatchesFloor(re: Matcher, lines: seq<string>, floor: nat, procs: nat, cancellable: bool)
    returns (r: nat, aborted: bool)
    requires procs >= 1
    ensures !cancellable ==> !aborted
    ensures !aborted ==> r == PrunedCount(re, lines, floor)
    ensures r <= Count(re, lines)
  {
    var n := |lines|;
    var budget := n - floor;
    if budget <= 0 {
      r, aborted := EvaluateCoverageWithFloorSeq(re, lines, floor, cancellable);
      return;
    }
    var chunk := ScanChunkSize(n, procs);
    MakeGridValid(n, chunk);
    var job := FloorJob(re, lines, budget, MakeGrid(n, chunk));
    var s := RunWorkers(job, Min(procs, job.grid.chunks), cancellable);
    if s.hitCtlFlag {
      return 0, true;
    }
    job.FinishedPrefix(s);
    r := LocateMiss(job, Min(s.next, job.grid.chunks), s.chunkMiss, floor);
    aborted := false;
    PrunedCountDecides(re, lines, floor);
  }
}
