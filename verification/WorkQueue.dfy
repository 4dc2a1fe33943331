/** The work queue of the parallel scans: how many lines a chunk holds and where it starts
    (scanChunkSize and the chunk arithmetic of internal/pattern/scan.go). */
module WorkQueue {
  import opened Base

  const SCAN_CHUNK_LINES := 1024
  const SCAN_MIN_CHUNK_LINES := 32

  function ScanChunkSize(n: nat, procs: nat): (chunk: nat)
    requires procs >= 1
    ensures SCAN_MIN_CHUNK_LINES <= chunk <= SCAN_CHUNK_LINES
  {
    Min(Max((n + 4 * procs - 1) / (4 * procs), SCAN_MIN_CHUNK_LINES), SCAN_CHUNK_LINES)
  }

  /** n lines cut into `chunks` chunks of equal size, the last one possibly shorter. */
  datatype Grid = Grid(n: nat, chunk: nat, chunks: nat) {

    /** First line of chunk c, clipped to n: min(c * chunk, n) (see StartIsProduct). */
    function Start(c: nat): (i: nat)
      ensures i <= n
    {
      if c == 0 then 0 else Min(Start(c - 1) + chunk, n)
    }

    /** The chunks cover the lines and none is empty. */
    ghost predicate Valid() {
      && chunk > 0
      && Start(chunks) == n
      && (forall c :: 0 <= c < chunks ==> NonEmpty(c))
    }

    ghost predicate NonEmpty(c: nat) { Start(c) < Start(c + 1) }

    lemma {:induction false} StartIsProduct(c: nat)
      ensures Start(c) == Min(c * chunk, n)
    {
      if c > 0 {
        StartIsProduct(c - 1);
        OneMore(c - 1, chunk);
      }
    }

    lemma {:induction false} Ordered(c: nat, d: nat)
      requires c <= d
      ensures Start(c) <= Start(d)
    {
      if c < d { Ordered(c, d - 1); }
    }

    ghost predicate Contains(c: nat, i: nat) { Start(c) <= i < Start(c + 1) }

    lemma OneChunkPerLine(c: nat, d: nat, i: nat)
      requires Contains(c, i) && Contains(d, i)
      ensures c == d
    {
      if c < d { Ordered(c + 1, d); }
      if d < c { Ordered(d + 1, c); }
    }

    lemma {:induction false} ChunkOf(i: nat, hi: nat) returns (c: nat)
      requires i < Start(hi)
      ensures c < hi && Contains(c, i)
    {
      if Start(hi - 1) <= i { c := hi - 1; } else { c := ChunkOf(i, hi - 1); }
    }
  }

  /** The work queue of an n-line scan. */
  function MakeGrid(n: nat, chunk: nat): Grid
    requires chunk > 0
  {
    Grid(n, chunk, (n + chunk - 1) / chunk)
  }

  lemma CeilingDivision(n: nat, d: nat)
    requires d > 0
    ensures var q := (n + d - 1) / d; q >= 0 && q * d >= n && (q > 0 ==> (q - 1) * d < n) && (n > 0 ==> q > 0)
  {
    var q := (n + d - 1) / d;
    assert n + d - 1 == q * d + (n + d - 1) % d;
  }

  lemma MakeGridValid(n: nat, chunk: nat)
    requires chunk > 0
    ensures var g := MakeGrid(n, chunk); g.Valid() && (n > 0 ==> g.chunks > 0)
  {
    var g := MakeGrid(n, chunk);
    CeilingDivision(n, chunk);
    g.StartIsProduct(g.chunks);
    forall c | 0 <= c < g.chunks ensures g.NonEmpty(c) {
      g.StartIsProduct(c);
      g.Ordered(c, g.chunks - 1);
      g.StartIsProduct(g.chunks - 1);
    }
  }

  /** Inputs of up to 4096 lines a worker are cut into at most four chunks a worker, unless the chunks
      are already as small as they get. */
  lemma ChunksPerWorker(n: nat, procs: nat)
    requires procs >= 1 && n <= 4 * procs * SCAN_CHUNK_LINES
    ensures MakeGrid(n, ScanChunkSize(n, procs)).chunks <= 4 * procs
  {
    var chunk, shares := ScanChunkSize(n, procs), 4 * procs;
    CeilingDivision(n, shares);
    var q := (n + shares - 1) / shares;
    if chunk >= q {
      TimesLe(q, chunk, shares);
    }
    assert n <= shares * chunk;
    CeilingAtMost(n, chunk, shares);
  }

  lemma TimesLe(a: nat, b: nat, c: nat)
    requires a <= b
    ensures a * c <= c * b
  {
  }

  lemma CeilingAtMost(n: nat, d: nat, k: nat)
    requires d > 0 && n <= k * d
    ensures (n + d - 1) / d <= k
  {
    CeilingDivision(n, d);
    var q := (n + d - 1) / d;
    if q > k { TimesLe(k, q - 1, d); }
  }
}
