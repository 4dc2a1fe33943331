/** The counting scan with an optional per-line bitmap (scanMatchesInto in
    internal/pattern/scan.go) and its caller matchBitmap (internal/pattern/multi.go). */
module BitmapScan {
  import opened Base
  import opened Coverage
  import opened WorkQueue

  /** A worker's position; `local` is the private count it publishes when it leaves. */
  datatype Pc =
    | Claim(local: nat)
    | Check(c: nat, local: nat)
    | Line(c: nat, i: nat, local: nat)
    | AbortHit(c: nat, local: nat)
    | Flush(local: nat)
    | Done
  {
    predicate Holding() { Check? || Line? || AbortHit? }

    function Local(): nat { if Done? then 0 else local }
  }

  /** The shared state; `next` counts chunks (the source's counter is `chunk` times it). History:
      who claimed each chunk, and which lines have been matched against the pattern. */
  datatype Shared = Shared(
    next: nat, total: nat, hitCtlFlag: bool, aborted: bool, bitmap: seq<bool>,
    pc: seq<Pc>, owner: seq<nat>, scanned: seq<bool>)

  /** Scanned lines below k that match. */
  function ScannedHits(re: Matcher, lines: seq<string>, scanned: seq<bool>, k: nat): nat
    requires |scanned| == |lines| && k <= |lines|
  {
    if k == 0 then 0
    else ScannedHits(re, lines, scanned, k - 1) + if scanned[k - 1] && re(lines[k - 1]) then 1 else 0
  }

  lemma {:induction false} ScanOne(re: Matcher, lines: seq<string>, scanned: seq<bool>, i: nat, k: nat)
    requires |scanned| == |lines| && k <= |lines| && i < |lines| && !scanned[i]
    ensures ScannedHits(re, lines, scanned[i := true], k)
         == ScannedHits(re, lines, scanned, k) + if i < k && re(lines[i]) then 1 else 0
  {
    if k > 0 { ScanOne(re, lines, scanned, i, k - 1); }
  }

  lemma {:induction false} ScannedAll(re: Matcher, lines: seq<string>, scanned: seq<bool>, k: nat)
    requires |scanned| == |lines| && k <= |lines| && forall i :: 0 <= i < |lines| ==> scanned[i]
    ensures ScannedHits(re, lines, scanned, k) == Hits(re, lines, 0, k)
  {
    if k > 0 { ScannedAll(re, lines, scanned, k - 1); }
  }

  lemma {:induction false} ScannedNone(re: Matcher, lines: seq<string>, scanned: seq<bool>, k: nat)
    requires |scanned| == |lines| && k <= |lines| && forall i :: 0 <= i < |lines| ==> !scanned[i]
    ensures ScannedHits(re, lines, scanned, k) == 0
  {
    if k > 0 { ScannedNone(re, lines, scanned, k - 1); }
  }

  function SetBits(bits: seq<bool>, k: nat): nat
    requires k <= |bits|
  {
    if k == 0 then 0 else SetBits(bits, k - 1) + if bits[k - 1] then 1 else 0
  }

  lemma {:induction false} SetBitsAreScannedHits(re: Matcher, lines: seq<string>, scanned: seq<bool>, bits: seq<bool>, k: nat)
    requires |scanned| == |lines| == |bits| && k <= |lines|
    requires forall i :: 0 <= i < |lines| ==> bits[i] == (scanned[i] && re(lines[i]))
    ensures SetBits(bits, k) == ScannedHits(re, lines, scanned, k)
  {
    if k > 0 { SetBitsAreScannedHits(re, lines, scanned, bits, k - 1); }
  }

  datatype MatchJob = MatchJob(re: Matcher, lines: seq<string>, before: seq<bool>, grid: Grid) {

    ghost predicate Valid() { grid.Valid() && grid.n == |lines| == |before| }

    function Init(workers: nat): Shared {
      Shared(0, 0, false, false, before, seq(workers, _ => Claim(0)),
             seq(grid.chunks, _ => 0), seq(|lines|, _ => false))
    }

    ghost predicate Shape(s: Shared) { |s.owner| == grid.chunks && |s.scanned| == |s.bitmap| == |lines| == |before| }

    ghost predicate WorkerOk(s: Shared, w: nat)
      requires Valid() && Shape(s) && w < |s.pc|
    {
      var p := s.pc[w];
      && (p.Holding() ==> p.c < s.next && p.c < grid.chunks && s.owner[p.c] == w)
      && (p.Line? ==> grid.Start(p.c) <= p.i <= grid.Start(p.c + 1))
      && (p.AbortHit? ==> s.aborted)
      && ((p.Flush? || p.Done?) && !s.hitCtlFlag ==> s.next >= grid.chunks)
    }

    ghost predicate Held(s: Shared, c: nat)
      requires Shape(s) && c < grid.chunks
    {
      s.owner[c] < |s.pc| && s.pc[s.owner[c]].Holding() && s.pc[s.owner[c]].c == c
    }

    /** Which lines of chunk c have been scanned: none before it is claimed, those its holder has
        passed while it is held, all of them afterwards (unless the scan was aborted). */
    ghost predicate ChunkOk(s: Shared, c: nat)
      requires Valid() && Shape(s) && c < grid.chunks
    {
      forall j {:trigger s.scanned[j]} :: 0 <= j < |lines| && grid.Contains(c, j) ==>
        && (c >= s.next ==> !s.scanned[j])
        && (c < s.next && !Held(s, c) ==> s.scanned[j] || s.hitCtlFlag)
        && (c < s.next && Held(s, c) ==>
              (s.scanned[j] <==> s.pc[s.owner[c]].Line? && j < s.pc[s.owner[c]].i))
    }

    ghost function Locals(ps: seq<Pc>): nat { if ps == [] then 0 else ps[0].Local() + Locals(ps[1..]) }

    lemma {:induction false} LocalsUpdate(ps: seq<Pc>, w: nat, p: Pc)
      requires w < |ps|
      ensures Locals(ps[w := p]) + ps[w].Local() == Locals(ps) + p.Local()
    {
      if w > 0 {
        assert ps[w := p][1..] == ps[1..][w - 1 := p];
        LocalsUpdate(ps[1..], w - 1, p);
      } else {
        assert ps[w := p][1..] == ps[1..];
      }
    }

    lemma {:induction false} LocalsZero(ps: seq<Pc>)
      requires forall w :: 0 <= w < |ps| ==> ps[w].Local() == 0
      ensures Locals(ps) == 0
    {
      if ps != [] { LocalsZero(ps[1..]); }
    }

    ghost predicate BitsOk(s: Shared)
      requires Shape(s)
    {
      forall i :: 0 <= i < |lines| ==> s.bitmap[i] == (before[i] || (s.scanned[i] && re(lines[i])))
    }

    ghost predicate Inv(s: Shared) {
      && Valid() && Shape(s)
      && (forall w :: 0 <= w < |s.pc| ==> WorkerOk(s, w))
      && (forall c :: 0 <= c < grid.chunks ==> ChunkOk(s, c))
      && BitsOk(s)
      && s.total + Locals(s.pc) == ScannedHits(re, lines, s.scanned, |lines|)
      && (s.hitCtlFlag ==> s.aborted)
    }

    lemma InitInv(workers: nat)
      requires Valid()
      ensures Inv(Init(workers))
    {
      LocalsZero(Init(workers).pc);
      ScannedNone(re, lines, Init(workers).scanned, |lines|);
    }

    lemma AbortKeepsInv(s: Shared)
      requires Inv(s)
      ensures Inv(s.(aborted := true))
    {
      var t := s.(aborted := true);
      forall w | 0 <= w < |t.pc| ensures WorkerOk(t, w) { assert WorkerOk(s, w); }
      forall c | 0 <= c < grid.chunks ensures ChunkOk(t, c) { assert ChunkOk(s, c); }
    }

    /** What a step of worker w leaves alone, and what it re-establishes. */
    ghost predicate Stepped(s: Shared, t: Shared, w: nat)
      requires Valid() && Shape(s) && w < |s.pc|
    {
      && Shape(t) && |t.pc| == |s.pc|
      && t.next >= s.next && (s.hitCtlFlag ==> t.hitCtlFlag) && s.aborted == t.aborted
      && (forall v {:trigger t.pc[v]} :: 0 <= v < |s.pc| && v != w ==> t.pc[v] == s.pc[v])
      && (forall c {:trigger t.owner[c]} :: 0 <= c < grid.chunks && c != s.next ==> t.owner[c] == s.owner[c])
      && WorkerOk(t, w)
      && (forall c :: 0 <= c < grid.chunks && ChunkOk(s, c) ==> ChunkOk(t, c))
      && (BitsOk(s) ==> BitsOk(t))
    }

    ghost predicate Ready(s: Shared, w: nat) {
      Valid() && Shape(s) && w < |s.pc| && WorkerOk(s, w)
    }

    function ClaimChunk(s: Shared, w: nat): (t: Shared)
      requires Ready(s, w) && s.pc[w].Claim?
      ensures Stepped(s, t, w) && t.next == s.next + 1 && t == s.(next := t.next, owner := t.owner, pc := t.pc)
      ensures t.pc[w].Local() == s.pc[w].Local()
      ensures if s.next < grid.chunks then t.pc[w].Holding() && t.pc[w].c == s.next && t.owner[s.next] == w
              else t.pc[w].Flush? && t.owner == s.owner
    {
      if s.next < grid.chunks then TakeChunk(s, w) else s.(next := s.next + 1, pc := s.pc[w := Flush(s.pc[w].local)])
    }

    function TakeChunk(s: Shared, w: nat): (t: Shared)
      requires Ready(s, w) && s.pc[w].Claim? && s.next < grid.chunks
      ensures Stepped(s, t, w) && t.next == s.next + 1 && t == s.(next := t.next, owner := t.owner, pc := t.pc)
      ensures t.pc[w].Local() == s.pc[w].Local()
      ensures t.pc[w].Holding() && t.pc[w].c == s.next && t.owner[s.next] == w
    {
      s.(next := s.next + 1, owner := s.owner[s.next := w], pc := s.pc[w := Check(s.next, s.pc[w].local)])
    }

    function ReadToken(s: Shared, w: nat): (t: Shared)
      requires Ready(s, w) && s.pc[w].Check?
      ensures Stepped(s, t, w) && t == s.(pc := t.pc) && t.pc[w].Local() == s.pc[w].Local()
      ensures t.pc[w].Holding() && t.pc[w].c == s.pc[w].c
      ensures if s.aborted then t.pc[w].AbortHit? else t.pc[w].Line? && grid.Contains(t.pc[w].c, t.pc[w].i)
    {
      var Check(c, local) := s.pc[w];
      assert grid.NonEmpty(c);
      s.(pc := s.pc[w := if s.aborted then AbortHit(c, local) else Line(c, grid.Start(c), local)])
    }

    /** What a worker makes of line i of its chunk, if there is one left. */
    ghost predicate Matched(s: Shared, t: Shared, w: nat, i: nat, more: bool)
      requires Shape(s) && Shape(t) && w < |s.pc| == |t.pc| && (more ==> i < |lines|)
    {
      && (forall j {:trigger t.bitmap[j]} :: 0 <= j < |lines| ==>
            t.bitmap[j] == (s.bitmap[j] || (j == i && more && re(lines[j]))))
      && t.pc[w].Local() == s.pc[w].Local() + if more && re(lines[i]) then 1 else 0
    }

    function MatchLine(s: Shared, w: nat): (t: Shared)
      requires Ready(s, w) && s.pc[w].Line?
      ensures Stepped(s, t, w) && Matched(s, t, w, s.pc[w].i, s.pc[w].i < grid.Start(s.pc[w].c + 1))
    {
      var Line(c, i, local) := s.pc[w];
      if i == grid.Start(c + 1) then s.(pc := s.pc[w := Claim(local)]) else ScanLine(s, w)
    }

    function ScanLine(s: Shared, w: nat): (t: Shared)
      requires Ready(s, w) && s.pc[w].Line? && s.pc[w].i < grid.Start(s.pc[w].c + 1)
      ensures Stepped(s, t, w) && Matched(s, t, w, s.pc[w].i, true)
    {
      var Line(c, i, local) := s.pc[w];
      var t := s.(bitmap := if re(lines[i]) then s.bitmap[i := true] else s.bitmap,
                  scanned := s.scanned[i := true],
                  pc := s.pc[w := Line(c, i + 1, if re(lines[i]) then local + 1 else local)]);
      LineKeepsChunks(s, t, w);
      t
    }

    lemma LineKeepsChunks(s: Shared, t: Shared, w: nat)
      requires Ready(s, w) && s.pc[w].Line?
      requires s.pc[w].i < grid.Start(s.pc[w].c + 1)
      requires Shape(t) && |t.pc| == |s.pc| && t.next == s.next && t.owner == s.owner && t.hitCtlFlag == s.hitCtlFlag
      requires t.scanned == s.scanned[s.pc[w].i := true]
      requires t.pc[w].Line? && t.pc[w].c == s.pc[w].c && t.pc[w].i == s.pc[w].i + 1
      requires forall v :: 0 <= v < |s.pc| && v != w ==> t.pc[v] == s.pc[v]
      ensures forall d :: 0 <= d < grid.chunks && ChunkOk(s, d) ==> ChunkOk(t, d)
    {
      forall d | 0 <= d < grid.chunks && ChunkOk(s, d) ensures ChunkOk(t, d) {
        LineKeepsChunk(s, t, w, d);
      }
    }

    lemma LineKeepsChunk(s: Shared, t: Shared, w: nat, d: nat)
      requires Ready(s, w) && s.pc[w].Line? && d < grid.chunks && ChunkOk(s, d)
      requires s.pc[w].i < grid.Start(s.pc[w].c + 1)
      requires Shape(t) && |t.pc| == |s.pc| && t.next == s.next && t.owner == s.owner && t.hitCtlFlag == s.hitCtlFlag
      requires t.scanned == s.scanned[s.pc[w].i := true]
      requires t.pc[w].Line? && t.pc[w].c == s.pc[w].c && t.pc[w].i == s.pc[w].i + 1
      requires forall v :: 0 <= v < |s.pc| && v != w ==> t.pc[v] == s.pc[v]
      ensures ChunkOk(t, d)
    {
      var Line(c, i, _) := s.pc[w];
      forall j | 0 <= j < |lines| && grid.Contains(d, j)
        ensures d >= s.next ==> !t.scanned[j]
        ensures d < s.next && !Held(t, d) ==> t.scanned[j] || t.hitCtlFlag
        ensures d < s.next && Held(t, d) ==>
                (t.scanned[j] <==> t.pc[t.owner[d]].Line? && j < t.pc[t.owner[d]].i)
      {
        assert s.scanned[j] || !s.scanned[j];
        if j == i { grid.OneChunkPerLine(c, d, i); }
      }
    }

    function Leave(s: Shared, w: nat): (t: Shared)
      requires Ready(s, w) && (s.pc[w].AbortHit? || s.pc[w].Flush? || s.pc[w].Done?)
      ensures Stepped(s, t, w)
    {
      match s.pc[w]
      case AbortHit(_, local) => s.(hitCtlFlag := true, pc := s.pc[w := Flush(local)])
      case Flush(local) => s.(total := s.total + local, pc := s.pc[w := Done])
      case Done => s
    }

    /** One step of worker w. */
    function Step(s: Shared, w: nat): (t: Shared)
      requires Inv(s) && w < |s.pc|
      ensures Stepped(s, t, w)
    {
      assert WorkerOk(s, w);
      match s.pc[w]
      case Claim(_) => ClaimChunk(s, w)
      case Check(_, _) => ReadToken(s, w)
      case Line(_, _, _) => MatchLine(s, w)
      case _ => Leave(s, w)
    }

    /** Every step of every worker keeps the invariant. */
    lemma StepKeepsInv(s: Shared, w: nat)
      requires Inv(s) && w < |s.pc|
      ensures Inv(Step(s, w))
    {
      var t := Step(s, w);
      assert WorkerOk(s, w);
      forall v | 0 <= v < |t.pc| && v != w ensures WorkerOk(t, v) {
        OtherWorker(s, t, w, v);
      }
      StepKeepsCount(s, w);
    }

    lemma OtherWorker(s: Shared, t: Shared, w: nat, v: nat)
      requires Inv(s) && w < |s.pc| && v < |s.pc| && v != w && Stepped(s, t, w)
      ensures WorkerOk(t, v)
    {
      assert WorkerOk(s, v);
      assert s.pc[v].Holding() ==> t.owner[s.pc[v].c] == v;
    }

    lemma StepKeepsCount(s: Shared, w: nat)
      requires Inv(s) && w < |s.pc|
      ensures var t := Step(s, w);
              && t.total + Locals(t.pc) == ScannedHits(re, lines, t.scanned, |lines|)
              && (t.hitCtlFlag ==> t.aborted)
    {
      var t := Step(s, w);
      assert WorkerOk(s, w);
      assert t.pc == s.pc[w := t.pc[w]];
      LocalsUpdate(s.pc, w, t.pc[w]);
      if s.pc[w].Line? && s.pc[w].i < grid.Start(s.pc[w].c + 1) {
        assert ChunkOk(s, s.pc[w].c) && grid.Contains(s.pc[w].c, s.pc[w].i);
        ScanOne(re, lines, s.scanned, s.pc[w].i, |lines|);
      }
    }

    ghost function Rank(p: Pc): nat
      requires grid.n == |lines|
    {
      match p
      case Done => 0
      case Flush(_) => 1
      case AbortHit(_, _) => 2
      case Claim(_) => 2
      case Line(c, i, _) => if i < grid.Start(c + 1) then 3 + grid.Start(c + 1) - i else 3
      case Check(_, _) => 4 + grid.chunk
    }

    ghost function Ranks(ps: seq<Pc>): nat
      requires grid.n == |lines|
    {
      if ps == [] then 0 else Rank(ps[0]) + Ranks(ps[1..])
    }

    lemma {:induction false} RanksUpdate(ps: seq<Pc>, w: nat, p: Pc)
      requires grid.n == |lines| && w < |ps|
      ensures Ranks(ps[w := p]) + Rank(ps[w]) == Ranks(ps) + Rank(p)
    {
      if w > 0 {
        assert ps[w := p][1..] == ps[1..][w - 1 := p];
        RanksUpdate(ps[1..], w - 1, p);
      } else {
        assert ps[w := p][1..] == ps[1..];
      }
    }

    ghost function Unclaimed(s: Shared): nat { if s.next < grid.chunks then grid.chunks - s.next else 0 }

    ghost function Work(s: Shared): nat
      requires grid.n == |lines|
    {
      Unclaimed(s) * (grid.chunk + 4) + Ranks(s.pc) + if s.aborted then 0 else 1
    }

    /** A step of an unfinished worker leaves less work, so no schedule runs forever. */
    lemma StepShrinks(s: Shared, w: nat)
      requires Inv(s) && w < |s.pc| && !s.pc[w].Done?
      ensures Work(Step(s, w)) < Work(s)
    {
      var t := Step(s, w);
      assert WorkerOk(s, w);
      assert t.pc == s.pc[w := t.pc[w]];
      RanksUpdate(s.pc, w, t.pc[w]);
      if s.pc[w].Claim? && s.next < grid.chunks {
        assert Unclaimed(s) * (grid.chunk + 4) == Unclaimed(t) * (grid.chunk + 4) + (grid.chunk + 4);
      } else {
        assert Unclaimed(t) == Unclaimed(s);
        RankDrops(s, w);
      }
    }

    lemma RankDrops(s: Shared, w: nat)
      requires Inv(s) && w < |s.pc| && !s.pc[w].Done? && !(s.pc[w].Claim? && s.next < grid.chunks)
      ensures Rank(Step(s, w).pc[w]) < Rank(s.pc[w])
    {
      assert WorkerOk(s, w);
    }

    ghost predicate Finished(s: Shared) { forall w :: 0 <= w < |s.pc| ==> s.pc[w].Done? }

    /** Finished unaborted: every line has been scanned and every local count published. */
    lemma FinishedScan(s: Shared)
      requires Inv(s) && Finished(s) && s.pc != []
      ensures s.total == ScannedHits(re, lines, s.scanned, |lines|)
      ensures !s.hitCtlFlag ==> forall i :: 0 <= i < |lines| ==> s.scanned[i]
    {
      LocalsZero(s.pc);
      if !s.hitCtlFlag {
        assert WorkerOk(s, 0);
        forall i | 0 <= i < |lines| ensures s.scanned[i] {
          var c := grid.ChunkOf(i, grid.chunks);
          assert ChunkOk(s, c);
        }
      }
    }
  }

  method RunWorkers(job: MatchJob, workers: nat, cancellable: bool) returns (s: Shared)
    requires job.Valid() && workers > 0
    ensures job.Inv(s) && job.Finished(s) && s.pc != []
    ensures !cancellable ==> !s.hitCtlFlag
  {
    s := job.Init(workers);
    job.InitInv(workers);
    while exists w :: 0 <= w < |s.pc| && !s.pc[w].Done?
      invariant job.Inv(s) && s.pc != []
      invariant !cancellable ==> !s.aborted
      decreases job.Work(s)
    {
      var raise: bool := *;
      if raise && cancellable && !s.aborted {
        job.AbortKeepsInv(s);
        s := s.(aborted := true);
      } else {
        var w :| 0 <= w < |s.pc| && !s.pc[w].Done?;
        job.StepKeepsInv(s, w);
        job.StepShrinks(s, w);
        s := job.Step(s, w);
      }
    }
  }

  /** The sequential scan. `scanned` is the prefix it got through before its token was raised. */
  method ScanMatchesSeq(re: Matcher, lines: seq<string>, before: seq<bool>, cancellable: bool)
    returns (n: nat, bitmap: seq<bool>, aborted: bool, scanned: seq<bool>)
    requires |before| == |lines|
    ensures ScanOutcome(re, lines, before, n, bitmap, scanned)
    ensures !aborted ==> forall i :: 0 <= i < |lines| ==> scanned[i]
    ensures !cancellable ==> !aborted
  {
    n, bitmap, aborted, scanned := 0, before, false, seq(|lines|, _ => false);
    ScannedNone(re, lines, scanned, |lines|);
    for i := 0 to |lines|
      invariant ScanOutcome(re, lines, before, n, bitmap, scanned)
      invariant forall j :: 0 <= j < |lines| ==> (scanned[j] <==> j < i)
    {
      var observed: bool := *;
      if cancellable && observed {
        aborted := true;
        return;
      }
      ScanOne(re, lines, scanned, i, |lines|);
      if re(lines[i]) {
        n := n + 1;
        bitmap := bitmap[i := true];
      }
      scanned := scanned[i := true];
    }
  }

  /** The outcome of a scan of the marked lines: their matches are counted and recorded, and
      nothing else changes. */
  ghost predicate ScanOutcome(re: Matcher, lines: seq<string>, before: seq<bool>, n: nat, bitmap: seq<bool>, scanned: seq<bool>)
  {
    && |before| == |bitmap| == |scanned| == |lines|
    && n == ScannedHits(re, lines, scanned, |lines|)
    && forall i :: 0 <= i < |lines| ==> bitmap[i] == (before[i] || (scanned[i] && re(lines[i])))
  }

  /** scanMatchesInto: whatever the schedule, and whenever the token is raised, the count and the
      bitmap describe the same set of scanned lines; unaborted, that set is all of them. */
  method ScanMatchesInto(re: Option<Matcher>, lines: seq<string>, before: seq<bool>, procs: nat,
                         parallelMin: nat, cancellable: bool)
    returns (n: nat, bitmap: seq<bool>, aborted: bool, ghost scanned: seq<bool>)
    requires |before| == |lines| && procs >= 1
    ensures re.None? ==> n == 0 && bitmap == before && !aborted
    ensures re.Some? ==> ScanOutcome(re.value, lines, before, n, bitmap, scanned)
    ensures re.Some? && !aborted ==> n == Count(re.value, lines)
    ensures re.Some? && !aborted ==>
              forall i :: 0 <= i < |lines| ==> bitmap[i] == (before[i] || re.value(lines[i]))
    ensures !cancellable ==> !aborted
  {
    if re.None? || |lines| == 0 {
      n, bitmap, aborted, scanned := 0, before, false, before;
      return;
    }
    if procs < 2 || |lines| < parallelMin {
      n, bitmap, aborted, scanned := ScanMatchesSeq(re.value, lines, before, cancellable);
    } else {
      var chunk := ScanChunkSize(|lines|, procs);
      MakeGridValid(|lines|, chunk);
      var job := MatchJob(re.value, lines, before, MakeGrid(|lines|, chunk));
      var s := RunWorkers(job, Min(procs, job.grid.chunks), cancellable);
      job.FinishedScan(s);
      n, bitmap, aborted, scanned := s.total, s.bitmap, s.hitCtlFlag, s.scanned;
    }
    if !aborted { ScannedAll(re.value, lines, scanned, |lines|); }
  }

  /** From an all-false bitmap the count is the number of set bits and every set bit is a true
      match, even when the scan was cut short. */
  lemma CleanScan(re: Matcher, lines: seq<string>, n: nat, bitmap: seq<bool>, scanned: seq<bool>)
    requires ScanOutcome(re, lines, seq(|lines|, _ => false), n, bitmap, scanned)
    ensures n == SetBits(bitmap, |lines|)
    ensures forall i :: 0 <= i < |lines| && bitmap[i] ==> re(lines[i])
  {
    SetBitsAreScannedHits(re, lines, scanned, bitmap, |lines|);
  }

  /** matchBitmap. */
  method MatchBitmap(re: Matcher, lines: seq<string>, procs: nat, parallelMin: nat)
    returns (bitmap: seq<bool>, n: nat)
    requires procs >= 1
    ensures |bitmap| == |lines| && n == Count(re, lines) == SetBits(bitmap, |lines|)
    ensures forall i :: 0 <= i < |lines| ==> bitmap[i] == re(lines[i])
  {
    var aborted;
    ghost var scanned;
    n, bitmap, aborted, scanned := ScanMatchesInto(Some(re), lines, seq(|lines|, _ => false), procs, parallelMin, false);
    CleanScan(re, lines, n, bitmap, scanned);
  }
}
