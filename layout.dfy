/**
  The code-layout optimiser of uefi/minimize.py.

  A linear list of x86 instructions is spread over a fixed set of unused
  "holes" of a PE header.  Consecutive holes are chained by JMPs, each placed
  in the last bytes of its hole; a JMP costs 2 bytes (short, rel8) or 5 bytes
  (near, rel32).  `Solve` searches for an order of the holes that wastes the
  fewest bytes, `Minimize` also chooses the size of the ENTRY region.

  Instructions are modelled by their encoded lengths only.
*/
module Layout {
  import opened Wrappers

  /** A region that can hold code: a header hole, the ENTRY or the AHEAD region. */
  datatype Chunk = Chunk(name: string, offset: int, size: int)

  /** One instruction, reduced to its length in bytes. */
  type Insn = n: int | 0 < n witness 1

  /** One schedule entry: a chunk and the instructions placed in it, in order. */
  datatype Entry = Entry(chunk: Chunk, insns: seq<Insn>)

  type Schedule = seq<Entry>

  /** A cost bound; `Inf` is the source's `float('inf')`, "no bound yet". */
  datatype Bound = Inf | Fin(value: int)

  /** a < b, with Inf above every finite bound. */
  predicate Below(a: Bound, b: Bound) {
    match a
    case Inf => false
    case Fin(x) => b.Inf? || x < b.value
  }

  function Min(a: Bound, b: Bound): Bound {
    if Below(b, a) then b else a
  }

  /** b is infinite or at least c. */
  predicate AtLeast(b: Bound, c: int) {
    b.Inf? || c <= b.value
  }

  const SHORT_JMP := 2
  const NEAR_JMP := 5

  // ---------------------------------------------------------------------------
  // JMP sizes

  /**
    Size of a JMP at `ip` to `target`.  A short JMP is chosen exactly when the
    rel8 displacement, measured from the end of a 2-byte JMP, lies strictly
    between -0x80 and 0x80 (so the encodable displacement -0x80 is not used).
  */
  function JmpSize(ip: int, target: int): (r: int)
    ensures r == SHORT_JMP || r == NEAR_JMP
    ensures r == SHORT_JMP <==> -0x80 < target - (ip + 2) < 0x80
  {
    var off := if target > ip then target - ip - 2 else ip - target + 2;
    if off < 0x80 then SHORT_JMP else NEAR_JMP
  }

  /**
    Size of the JMP from the end of `src` to the start of `dst`: the JMP is
    measured as if it occupied the last two bytes of `src`.
  */
  function ChunkJmpSize(src: Chunk, dst: Chunk): (r: int)
    ensures r == JmpSize(src.offset + src.size - 2, dst.offset)
    ensures r == SHORT_JMP <==> -0x80 < dst.offset - (src.offset + src.size) < 0x80
  {
    JmpSize(src.offset + src.size - 2, dst.offset)
  }

  // ---------------------------------------------------------------------------
  // Filling one chunk

  /** Total length of a list of instructions. */
  function Sum(s: seq<Insn>): (r: int)
    ensures 0 <= r
  {
    if s == [] then 0 else Sum(s[..|s| - 1]) + s[|s| - 1]
  }

  lemma {:induction false} SumAppend(a: seq<Insn>, b: seq<Insn>)
    ensures Sum(a + b) == Sum(a) + Sum(b)
    decreases |b|
  {
    if b == [] {
      assert a + b == a;
    } else {
      var b' := b[..|b| - 1];
      assert (a + b)[..|a + b| - 1] == a + b';
      SumAppend(a, b');
    }
  }

  lemma {:induction false} SumPrefixMonotone(s: seq<Insn>, i: nat, j: nat)
    requires i <= j <= |s|
    ensures Sum(s[..i]) <= Sum(s[..j])
    ensures i < j ==> Sum(s[..i + 1]) <= Sum(s[..j])
    decreases j - i
  {
    if i < j {
      assert s[..j][..j - 1] == s[..j - 1];
      SumPrefixMonotone(s, i, j - 1);
    }
  }

  lemma SumStep(s: seq<Insn>, n: nat)
    requires n < |s|
    ensures Sum(s[..n + 1]) == Sum(s[..n]) + s[n]
  {
    assert s[..n + 1][..n] == s[..n];
  }

  /** The sum of a prefix splits at any point inside it. */
  lemma SumSlice(s: seq<Insn>, i: nat, j: nat)
    requires i <= j <= |s|
    ensures Sum(s[..j]) == Sum(s[..i]) + Sum(s[i..j])
    ensures s[i..][..j - i] == s[i..j]
  {
    assert s[..j] == s[..i] + s[i..j];
    SumAppend(s[..i], s[i..j]);
  }

  /**
    (n, rem) is what filling a budget of `size` bytes greedily with a prefix of
    `insns` gives: n instructions taken, rem bytes left over, and when an
    instruction was left out it did not fit in what remained.
  */
  predicate Fills(insns: seq<Insn>, size: int, n: int, rem: int) {
    && 0 <= n <= |insns|
    && rem == size - Sum(insns[..n])
    && (n > 0 ==> rem >= 0)
    && (n < |insns| ==> rem < insns[n])
  }

  /** The greedy fill, as a recursive definition. */
  function Take(insns: seq<Insn>, size: int): (r: (int, int))
    ensures 0 <= r.0 <= |insns|
    ensures 0 <= size ==> 0 <= r.1 <= size
    decreases |insns|
  {
    if insns == [] || size < insns[0] then (0, size)
    else
      var r' := Take(insns[1..], size - insns[0]);
      (r'.0 + 1, r'.1)
  }

  /** `Take` fills greedily: it takes instructions while they fit and reports what is left. */
  lemma {:induction false} TakeFills(insns: seq<Insn>, size: int)
    ensures Fills(insns, size, Take(insns, size).0, Take(insns, size).1)
    decreases |insns|
  {
    if insns != [] && size >= insns[0] {
      var r' := Take(insns[1..], size - insns[0]);
      TakeFills(insns[1..], size - insns[0]);
      SumAppend([insns[0]], insns[1..][..r'.0]);
      assert insns[..r'.0 + 1] == [insns[0]] + insns[1..][..r'.0];
      assert Sum([insns[0]]) == insns[0] by {
        assert [insns[0]][..0] == [];
      }
    }
  }

  /** The greedy fill is the only one: `Fills` determines n and rem. */
  lemma {:induction false} FillsUnique(insns: seq<Insn>, size: int, n1: int, rem1: int, n2: int, rem2: int)
    requires Fills(insns, size, n1, rem1) && Fills(insns, size, n2, rem2)
    ensures n1 == n2 && rem1 == rem2
  {
    if n1 != n2 {
      var lo, hi := if n1 < n2 then n1 else n2, if n1 < n2 then n2 else n1;
      SumStep(insns, lo);
      SumPrefixMonotone(insns, lo, hi);
      assert false;
    }
  }

  /**
    The greedy fill stays ahead: filling from position k of `insns` reaches at
    least position m whenever the first m instructions together fit in the budget.
  */
  lemma GreedyCatchesUp(insns: seq<Insn>, k: nat, m: nat, avail: int)
    requires k <= |insns| && m <= |insns|
    requires Sum(insns[..m]) <= avail
    ensures m <= k + Take(insns[k..], avail).0
  {
    var g := Take(insns[k..], avail);
    TakeFills(insns[k..], avail);
    if k + g.0 < m {
      var j := k + g.0;
      SumSlice(insns, k, j);
      SumSlice(insns, k, j + 1);
      SumStep(insns, j);
      SumPrefixMonotone(insns, j + 1, m);
      assert false;
    }
  }

  /**
    take_insns: how many instructions fit in `size` bytes, and how many bytes
    are left after taking them.
  */
  method TakeInsns(insns: seq<Insn>, size: int) returns (n: int, rem: int)
    ensures (n, rem) == Take(insns, size)
  {
    rem := size;
    n := 0;
    while n < |insns|
      invariant 0 <= n <= |insns|
      invariant rem == size - Sum(insns[..n])
      invariant n > 0 ==> rem >= 0
    {
      if rem < insns[n] {
        break;
      }
      assert insns[..n + 1][..n] == insns[..n];
      rem := rem - insns[n];
      n := n + 1;
    }
    var t := Take(insns, size);
    TakeFills(insns, size);
    FillsUnique(insns, size, n, rem, t.0, t.1);
  }

  // ---------------------------------------------------------------------------
  // Schedules

  /** The instructions of a schedule, in schedule order. */
  function Flatten(s: Schedule): seq<Insn> {
    if s == [] then [] else s[0].insns + Flatten(s[1..])
  }

  /** The chunks of a schedule, in schedule order. */
  function ChunksOf(s: Schedule): seq<Chunk> {
    if s == [] then [] else [s[0].chunk] + ChunksOf(s[1..])
  }

  /**
    Bytes lost in entry `e` when it jumps to `next`: the excess of its JMP over
    a short JMP plus the bytes of the chunk left unfilled.
  */
  function EntryWaste(e: Entry, next: Chunk): int {
    var jmp := ChunkJmpSize(e.chunk, next);
    (jmp - SHORT_JMP) + (e.chunk.size - jmp - Sum(e.insns))
  }

  /** Bytes lost over all entries that jump to a successor (every entry but the last). */
  function Waste(s: Schedule): int {
    if |s| < 2 then 0 else EntryWaste(s[0], s[1].chunk) + Waste(s[1..])
  }

  /**
    Entry `e` was filled the way the search fills a chunk before jumping to
    `next`: the chunk can hold that JMP, and `e` holds the longest prefix of
    `rest` (the instructions still to be placed) that fits beside it.
  */
  predicate Packed(e: Entry, next: Chunk, rest: seq<Insn>) {
    var avail := e.chunk.size - ChunkJmpSize(e.chunk, next);
    0 <= avail && e.insns == rest[..Take(rest, avail).0]
  }

  /** Every entry of `s` but the last is packed ahead of its JMP to the next entry. */
  predicate AllPacked(s: Schedule) {
    |s| < 2 || (Packed(s[0], s[1].chunk, Flatten(s)) && AllPacked(s[1..]))
  }

  /**
    `t` is a schedule the search can produce from `cur` with instructions
    `insns` still to place and `chunks` still to visit: with no chunks left,
    `cur` takes all remaining instructions; otherwise `t` fills `cur` greedily
    ahead of its JMP to one of the candidate chunks and continues with a
    schedule produced from that chunk over the other chunks.
  */
  ghost predicate Completes(t: Schedule, cur: Chunk, insns: seq<Insn>, chunks: seq<Chunk>)
    decreases |chunks|, 1
  {
    if chunks == [] then t == [Entry(cur, insns)]
    else exists i :: Step(t, cur, insns, chunks, i)
  }

  /** `Completes` through candidate chunks[i] as the chunk after `cur`. */
  ghost predicate Step(t: Schedule, cur: Chunk, insns: seq<Insn>, chunks: seq<Chunk>, i: int)
    decreases |chunks|, 0
  {
    && 0 <= i < Candidates(chunks)
    && 2 <= |t| && t[0].chunk == cur && t[1].chunk == chunks[i]
    && Packed(t[0], chunks[i], insns)
    && Completes(t[1..], chunks[i], insns[|t[0].insns|..], Without(chunks, i))
  }

  /**
    `t` places `cur` and then every chunk of `chunks` exactly once, with the
    last chunk of `chunks` last.
  */
  predicate Places(t: Schedule, cur: Chunk, chunks: seq<Chunk>) {
    && |t| == 1 + |chunks|
    && t[0].chunk == cur
    && multiset(ChunksOf(t[1..])) == multiset(chunks)
    && (chunks != [] ==> t[|t| - 1].chunk == chunks[|chunks| - 1])
  }

  /**
    Every schedule the search can produce is a layout of the code: it visits
    `cur` and then each chunk exactly once, the last chunk last; it holds
    exactly the instructions, in order; and every entry but the last holds
    its instructions and its JMP.
  */
  lemma {:induction false} CompletesPlaces(t: Schedule, cur: Chunk, insns: seq<Insn>, chunks: seq<Chunk>)
    requires Completes(t, cur, insns, chunks)
    ensures Places(t, cur, chunks) && Flatten(t) == insns && AllPacked(t)
    decreases |chunks|
  {
    if chunks != [] {
      var i :| Step(t, cur, insns, chunks, i);
      var e, rest := t[0], t[1..];
      CompletesPlaces(rest, chunks[i], insns[|e.insns|..], Without(chunks, i));
      PlacesExtend(e, rest, chunks, i);
      PackedExtend(e, rest, insns);
      assert t == [e] + rest;
    }
  }

  lemma PackedExtend(e: Entry, rest: Schedule, insns: seq<Insn>)
    requires rest != [] && Packed(e, rest[0].chunk, insns)
    requires Flatten(rest) == insns[|e.insns|..] && AllPacked(rest)
    ensures Flatten([e] + rest) == insns && AllPacked([e] + rest)
  {
    var t := [e] + rest;
    assert t[1..] == rest;
    PackedPrefix(e, rest[0].chunk, insns);
  }

  lemma PlacesExtend(e: Entry, rest: Schedule, chunks: seq<Chunk>, i: nat)
    requires i < Candidates(chunks)
    requires Places(rest, chunks[i], Without(chunks, i))
    ensures Places([e] + rest, e.chunk, chunks)
  {
    var t := [e] + rest;
    assert t[1..] == rest;
    MultisetWithout(chunks, i);
    assert t[|t| - 1] == rest[|rest| - 1];
  }

  /** Every entry of a packed schedule but the last holds its instructions and its JMP. */
  lemma {:induction false} PackedEntriesFit(s: Schedule, i: nat)
    requires AllPacked(s)
    requires i + 1 < |s|
    ensures Sum(s[i].insns) + ChunkJmpSize(s[i].chunk, s[i + 1].chunk) <= s[i].chunk.size
    ensures 0 <= EntryWaste(s[i], s[i + 1].chunk)
  {
    if i > 0 {
      PackedEntriesFit(s[1..], i - 1);
    } else {
      TakeFills(Flatten(s), s[0].chunk.size - ChunkJmpSize(s[0].chunk, s[1].chunk));
    }
  }

  /** A packed schedule wastes a non-negative number of bytes. */
  lemma {:induction false} PackedWasteNonNegative(s: Schedule)
    requires AllPacked(s)
    ensures 0 <= Waste(s)
  {
    if |s| >= 2 {
      PackedEntriesFit(s, 0);
      PackedWasteNonNegative(s[1..]);
    }
  }

  /**
    Entry `e` holds some prefix of `rest`, not necessarily the longest, that
    fits in its chunk beside the JMP to `next`.
  */
  predicate Fits(e: Entry, next: Chunk, rest: seq<Insn>) {
    && |e.insns| <= |rest| && e.insns == rest[..|e.insns|]
    && Sum(e.insns) + ChunkJmpSize(e.chunk, next) <= e.chunk.size
  }

  /**
    `t` is any assignment of `insns` to an order of the chunks that `solve`
    may choose from `cur`: each entry but the last holds a prefix of the
    remaining instructions that fits beside its JMP, however many it takes,
    and the last takes the rest.
  */
  ghost predicate Assigns(t: Schedule, cur: Chunk, insns: seq<Insn>, chunks: seq<Chunk>)
    decreases |chunks|, 1
  {
    if chunks == [] then t == [Entry(cur, insns)]
    else exists i :: AssignStep(t, cur, insns, chunks, i)
  }

  /** `Assigns` through candidate chunks[i] as the chunk after `cur`. */
  ghost predicate AssignStep(t: Schedule, cur: Chunk, insns: seq<Insn>, chunks: seq<Chunk>, i: int)
    decreases |chunks|, 0
  {
    && 0 <= i < Candidates(chunks)
    && 2 <= |t| && t[0].chunk == cur && t[1].chunk == chunks[i]
    && Fits(t[0], chunks[i], insns)
    && Assigns(t[1..], chunks[i], insns[|t[0].insns|..], Without(chunks, i))
  }

  /** Every schedule the search can build is an assignment: greedy filling is one way to fit. */
  lemma {:induction false} CompletesAssigns(t: Schedule, cur: Chunk, insns: seq<Insn>, chunks: seq<Chunk>)
    requires Completes(t, cur, insns, chunks)
    ensures Assigns(t, cur, insns, chunks)
    decreases |chunks|
  {
    if chunks != [] {
      var i :| Step(t, cur, insns, chunks, i);
      CompletesAssigns(t[1..], chunks[i], insns[|t[0].insns|..], Without(chunks, i));
      TakeFills(insns, cur.size - ChunkJmpSize(cur, chunks[i]));
      assert AssignStep(t, cur, insns, chunks, i);
    }
  }

  // ---------------------------------------------------------------------------
  // Exhaustive search: the reference that the branch-and-bound search meets

  /** How many next chunks the search tries: all but the last, unless it is the only one. */
  function Candidates(chunks: seq<Chunk>): (n: nat)
    ensures n <= |chunks|
    ensures chunks != [] ==> 0 < n
  {
    if |chunks| > 1 then |chunks| - 1 else |chunks|
  }

  function Without(chunks: seq<Chunk>, i: int): seq<Chunk>
    requires 0 <= i < |chunks|
  {
    chunks[..i] + chunks[i + 1..]
  }

  /**
    Least cost of completing a schedule from `cur` over `chunks` with
    instructions `insns`, having already wasted `cost` bytes, without any
    pruning; Inf when no order of the chunks can hold the JMPs.
  */
  function BestCost(insns: seq<Insn>, chunks: seq<Chunk>, cur: Chunk, cost: int): (r: Bound)
    ensures AtLeast(r, cost)
    decreases |chunks|, 1, 0
  {
    if chunks == [] then Fin(cost) else BestFrom(insns, chunks, cur, cost, 0)
  }

  /** Least cost over the candidate next chunks chunks[i..]. */
  function BestFrom(insns: seq<Insn>, chunks: seq<Chunk>, cur: Chunk, cost: int, i: nat): (r: Bound)
    ensures AtLeast(r, cost)
    decreases |chunks|, 0, Candidates(chunks) - i
  {
    if i >= Candidates(chunks) then Inf
    else Min(Branch(insns, chunks, cur, cost, i), BestFrom(insns, chunks, cur, cost, i + 1))
  }

  /** Least cost when chunks[i] follows `cur`. */
  function Branch(insns: seq<Insn>, chunks: seq<Chunk>, cur: Chunk, cost: int, i: nat): (r: Bound)
    requires i < |chunks|
    ensures AtLeast(r, cost)
    decreases |chunks|, 0, 0
  {
    var jmp := ChunkJmpSize(cur, chunks[i]);
    var avail := cur.size - jmp;
    if avail < 0 then Inf
    else
      var t := Take(insns, avail);
      BestCost(insns[t.0..], Without(chunks, i), chunks[i], cost + jmp - SHORT_JMP + t.1)
  }

  /** The exhaustive search over candidates j.. is no worse than any single one of them. */
  lemma {:induction false} BestFromBelowBranch(insns: seq<Insn>, chunks: seq<Chunk>, cur: Chunk, cost: int, j: nat, i: nat)
    requires j <= i < Candidates(chunks)
    ensures !Below(Branch(insns, chunks, cur, cost, i), BestFrom(insns, chunks, cur, cost, j))
    decreases i - j
  {
    if j < i {
      BestFromBelowBranch(insns, chunks, cur, cost, j + 1, i);
    }
  }

  /**
    Greedy filling stays ahead of any assignment: started k instructions
    further on (those k already placed, their bytes already saved), the
    exhaustive search from `cur` wastes no more than assignment `t`, plus the
    bytes of the k instructions.  Each greedy entry reaches at least as far
    into the instructions as the entry of `t` in the same chunk.
  */
  lemma {:induction false} GreedyStaysAhead(t: Schedule, cur: Chunk, insns: seq<Insn>, chunks: seq<Chunk>, cost: int, k: nat)
    requires Assigns(t, cur, insns, chunks)
    requires k <= |insns|
    ensures !Below(Fin(cost + Waste(t) + Sum(insns[..k])), BestCost(insns[k..], chunks, cur, cost))
    decreases |chunks|
  {
    if chunks != [] {
      var i :| AssignStep(t, cur, insns, chunks, i);
      var m := |t[0].insns|;
      var avail := cur.size - ChunkJmpSize(cur, chunks[i]);
      AssignWaste(t, cur, insns, chunks, i);
      var s := insns[k..];
      var n := Take(s, avail).0;
      BranchGreedy(s, chunks, cur, cost, i);
      GreedyAccount(insns, k, m, avail);
      var taken, placed := Sum(s[..n]), Sum(insns[m..][..k + n - m]);
      var cost' := cost + cur.size - SHORT_JMP - taken;
      var total := cost + Waste(t) + Sum(insns[..k]);
      assert total == cost' + Waste(t[1..]) + placed;
      GreedyStaysAhead(t[1..], chunks[i], insns[m..], Without(chunks, i), cost', k + n - m);
      var branch := BestCost(s[n..], Without(chunks, i), chunks[i], cost');
      assert !Below(Fin(total), branch);
      assert branch == Branch(s, chunks, cur, cost, i);
      BestFromBelowBranch(s, chunks, cur, cost, 0, i);
      assert BestCost(s, chunks, cur, cost) == BestFrom(s, chunks, cur, cost, 0);
    }
  }

  /**
    Where greedy filling from position k catches up with an entry ending at
    position m: it stops at or after m, and the bytes before k plus the
    bytes it takes equal the bytes before m plus those from m to where it stops.
  */
  lemma GreedyAccount(insns: seq<Insn>, k: nat, m: nat, avail: int)
    requires k <= |insns| && m <= |insns|
    requires Sum(insns[..m]) <= avail
    ensures var n := Take(insns[k..], avail).0;
            && m <= k + n
            && insns[m..][k + n - m..] == insns[k..][n..]
            && Sum(insns[..k]) + Sum(insns[k..][..n]) == Sum(insns[..m]) + Sum(insns[m..][..k + n - m])
  {
    var n := Take(insns[k..], avail).0;
    GreedyCatchesUp(insns, k, m, avail);
    SumSlice(insns, k, k + n);
    SumSlice(insns, m, k + n);
  }

  /**
    The first entry of an assignment holds a prefix of the instructions that
    fits beside the JMP, and wastes the chunk's bytes after a short JMP that
    those instructions do not fill.
  */
  lemma AssignWaste(t: Schedule, cur: Chunk, insns: seq<Insn>, chunks: seq<Chunk>, i: int)
    requires AssignStep(t, cur, insns, chunks, i)
    ensures |t[0].insns| <= |insns| && Sum(insns[..|t[0].insns|]) <= cur.size - ChunkJmpSize(cur, chunks[i])
    ensures Waste(t) == cur.size - SHORT_JMP - Sum(insns[..|t[0].insns|]) + Waste(t[1..])
  {
  }

  /** A branch whose chunk holds the JMP continues with the greedy fill, charged by what it leaves unfilled. */
  lemma BranchGreedy(insns: seq<Insn>, chunks: seq<Chunk>, cur: Chunk, cost: int, i: nat)
    requires i < |chunks| && 0 <= cur.size - ChunkJmpSize(cur, chunks[i])
    ensures var n := Take(insns, cur.size - ChunkJmpSize(cur, chunks[i])).0;
            Branch(insns, chunks, cur, cost, i)
            == BestCost(insns[n..], Without(chunks, i), chunks[i], cost + cur.size - SHORT_JMP - Sum(insns[..n]))
  {
    TakeFills(insns, cur.size - ChunkJmpSize(cur, chunks[i]));
  }

  /**
    The exhaustive search is optimal: no assignment of the instructions to an
    order of the chunks from `cur`, greedy or not, wastes fewer bytes than
    `BestCost` accounts for.
  */
  lemma BestCostOptimal(t: Schedule, cur: Chunk, insns: seq<Insn>, chunks: seq<Chunk>, cost: int)
    requires Assigns(t, cur, insns, chunks)
    ensures !Below(Fin(cost + Waste(t)), BestCost(insns, chunks, cur, cost))
  {
    GreedyStaysAhead(t, cur, insns, chunks, cost, 0);
    assert insns[..0] == [] && insns[0..] == insns;
  }

  /** The first entry of a schedule the search produces wastes what the search charges for it. */
  lemma StepWaste(t: Schedule, cur: Chunk, insns: seq<Insn>, chunks: seq<Chunk>, i: int)
    requires Step(t, cur, insns, chunks, i)
    ensures |t[0].insns| == Take(insns, cur.size - ChunkJmpSize(cur, chunks[i])).0
    ensures Waste(t) == ChunkJmpSize(cur, chunks[i]) - SHORT_JMP
                        + Take(insns, cur.size - ChunkJmpSize(cur, chunks[i])).1 + Waste(t[1..])
  {
    TakeFills(insns, cur.size - ChunkJmpSize(cur, chunks[i]));
  }

  // ---------------------------------------------------------------------------
  // Branch-and-bound search

  lemma MultisetWithout(chunks: seq<Chunk>, i: nat)
    requires i < |chunks|
    ensures multiset(chunks) == multiset{chunks[i]} + multiset(Without(chunks, i))
  {
    assert chunks == chunks[..i] + [chunks[i]] + chunks[i + 1..];
  }

  /** A packed entry holds a prefix of the remaining instructions. */
  lemma PackedPrefix(e: Entry, next: Chunk, rest: seq<Insn>)
    requires Packed(e, next, rest)
    ensures |e.insns| <= |rest| && e.insns + rest[|e.insns|..] == rest
  {
    assert rest[..|e.insns|] + rest[|e.insns|..] == rest;
  }

  /**
    Placing entry `e`, packed ahead of chunks[i], in front of a schedule the
    search can produce from chunks[i] gives one it can produce from `e.chunk`.
  */
  lemma ExtendCompletion(e: Entry, t: Schedule, insns: seq<Insn>, chunks: seq<Chunk>, i: nat)
    requires i < Candidates(chunks)
    requires Packed(e, chunks[i], insns)
    requires Completes(t, chunks[i], insns[|e.insns|..], Without(chunks, i))
    ensures Completes([e] + t, e.chunk, insns, chunks)
  {
    var s := [e] + t;
    assert s[1..] == t;
    assert Step(s, e.chunk, insns, chunks, i);
  }

  /**
    What the search learns from a recursive call: the schedule found from
    chunks[i], after `schedule` and entry `e`, is also one found from
    `e.chunk` after `schedule`, and its cost is `e`'s waste plus its own.
  */
  lemma ExtendResult(t: Schedule, cur: Chunk, insns: seq<Insn>, chunks: seq<Chunk>, i: nat,
                     n: int, rem: int, cost: int, newCost: int, finalCost: int)
    requires i < Candidates(chunks)
    requires 0 <= cur.size - ChunkJmpSize(cur, chunks[i])
    requires (n, rem) == Take(insns, cur.size - ChunkJmpSize(cur, chunks[i]))
    requires newCost == cost + ChunkJmpSize(cur, chunks[i]) - SHORT_JMP + rem
    requires Completes(t, chunks[i], insns[n..], Without(chunks, i))
    requires finalCost == newCost + Waste(t)
    ensures Completes([Entry(cur, insns[..n])] + t, cur, insns, chunks)
    ensures finalCost == cost + Waste([Entry(cur, insns[..n])] + t)
  {
    var e := Entry(cur, insns[..n]);
    TakeFills(insns, cur.size - ChunkJmpSize(cur, chunks[i]));
    ExtendCompletion(e, t, insns, chunks, i);
    assert ([e] + t)[1..] == t;
  }

  /** A branch that cannot beat the bound leaves it in place. */
  lemma MinOfAbove(a: Bound, b: Bound, c: int)
    requires AtLeast(b, c) && !Below(Fin(c), a)
    ensures Min(a, b) == a
  {
  }

  /**
    One step of the search over candidates: the bound after trying chunks[i]
    capped by the candidates after it is the bound before it capped by all of them.
  */
  lemma BoundStep(target: Bound, before: Bound, branch: Bound, rest: Bound, found: Bound, after: Bound)
    requires target == Min(before, Min(branch, rest))
    requires found == Min(before, branch)
    requires after == if Below(found, before) then found else before
    ensures target == Min(after, rest)
  {
  }

  /**
    solve: the cost bound and schedule reached from `cur`, with `cost` bytes
    already wasted by the partial schedule `schedule`, searching below
    `minCost`.  The result is the least cost of the exhaustive search capped by
    `minCost`; a schedule is returned exactly when it beats `minCost`, and it
    extends `schedule` by a schedule the search can produce (`tail`), wasting
    exactly the bytes the bound accounts for.
  */
  method Solve(insns: seq<Insn>, chunks: seq<Chunk>, cur: Chunk, cost: int, minCost: Bound, schedule: Schedule)
    returns (best: Option<Schedule>, bound: Bound, ghost tail: Schedule)
    requires 0 <= cost
    ensures chunks == [] ==> best == Some(schedule + [Entry(cur, insns)]) && bound == Fin(cost)
    ensures chunks != [] ==> bound == Min(minCost, BestCost(insns, chunks, cur, cost))
    ensures chunks != [] ==> (best.Some? <==> Below(bound, minCost))
    ensures best.Some? ==> bound.Fin? && cost <= bound.value
    ensures best.Some? ==> best.value == schedule + tail && Completes(tail, cur, insns, chunks)
    ensures best.Some? ==> bound.value == cost + Waste(tail)
    decreases |chunks|, 1
  {
    if chunks == [] {
      best, bound, tail := Some(schedule + [Entry(cur, insns)]), Fin(cost), [Entry(cur, insns)];
      return;
    }
    best, bound, tail := None, minCost, [];
    var n := |chunks|;
    if |chunks| > 1 {
      n := n - 1;
    }
    assert n == Candidates(chunks);
    for i := 0 to n
      invariant Min(minCost, BestCost(insns, chunks, cur, cost)) == Min(bound, BestFrom(insns, chunks, cur, cost, i))
      invariant best.None? ==> bound == minCost
      invariant best.Some? ==> Below(bound, minCost) && bound.Fin? && cost <= bound.value
      invariant best.Some? ==> best.value == schedule + tail && Completes(tail, cur, insns, chunks)
      invariant best.Some? ==> bound.value == cost + Waste(tail)
    {
      ghost var before := bound;
      var found, foundCost, foundTail := TryChunk(insns, chunks, cur, cost, schedule, i, bound);
      if Below(foundCost, bound) {
        bound := foundCost;
        best := found;
        tail := foundTail;
      }
      BoundStep(Min(minCost, BestCost(insns, chunks, cur, cost)), before,
                Branch(insns, chunks, cur, cost, i), BestFrom(insns, chunks, cur, cost, i + 1), foundCost, bound);
      if bound == Fin(0) {
        assert AtLeast(BestFrom(insns, chunks, cur, cost, i + 1), 0);
        break;
      }
    }
  }

  /**
    The body of the search loop for candidate chunks[i]: skips a chunk that
    cannot hold the JMP, or whose greedy fill already costs `minCost` or
    more; otherwise searches on from it below `minCost`.  The cost returned
    is the branch's exhaustive-search cost capped by `minCost`; a schedule is
    returned exactly when it beats `minCost`.
  */
  method TryChunk(insns: seq<Insn>, chunks: seq<Chunk>, cur: Chunk, cost: int, schedule: Schedule, i: nat, minCost: Bound)
    returns (found: Option<Schedule>, foundCost: Bound, ghost foundTail: Schedule)
    requires 0 <= cost && i < Candidates(chunks)
    ensures foundCost == Min(minCost, Branch(insns, chunks, cur, cost, i))
    ensures found.Some? <==> Below(foundCost, minCost)
    ensures found.Some? ==> foundCost.Fin? && cost <= foundCost.value
    ensures found.Some? ==> found.value == schedule + foundTail && Completes(foundTail, cur, insns, chunks)
    ensures found.Some? ==> foundCost.value == cost + Waste(foundTail)
    decreases |chunks|, 0
  {
    found, foundCost, foundTail := None, minCost, [];
    var nextChunk := chunks[i];
    var jmpSz := ChunkJmpSize(cur, nextChunk);
    var availSize := cur.size - jmpSz;
    if availSize < 0 {
      return;
    }
    var splitIdx, remSz := TakeInsns(insns, availSize);
    var newCost := cost + jmpSz - SHORT_JMP + remSz;
    if !Below(Fin(newCost), minCost) {
      MinOfAbove(minCost, Branch(insns, chunks, cur, cost, i), newCost);
      return;
    }
    var curChunkInsns, remInsns := insns[..splitIdx], insns[splitIdx..];
    var newSchedule := schedule + [Entry(cur, curChunkInsns)];
    var remChunks := chunks[..i] + chunks[i + 1..];
    var finalSchedule, finalCost, finalTail := Solve(remInsns, remChunks, nextChunk, newCost, minCost, newSchedule);
    found, foundCost := finalSchedule, finalCost;
    if finalSchedule.Some? {
      foundTail := [Entry(cur, curChunkInsns)] + finalTail;
      ExtendResult(finalTail, cur, insns, chunks, i, splitIdx, remSz, cost, newCost, finalCost.value);
      assert finalSchedule.value == schedule + foundTail;
    }
  }

  // ---------------------------------------------------------------------------
  // Choosing the ENTRY size

  function EntryChunk(entryOffset: int, entrySize: int): Chunk {
    Chunk("ENTRY", entryOffset, entrySize)
  }

  /** The final region, right after ENTRY and last in every schedule. */
  function AheadChunk(entryOffset: int, entrySize: int): Chunk {
    Chunk("AHEAD", entryOffset + entrySize, 0xffff_ffff)
  }

  /** Least cost over all ENTRY sizes below `e`. */
  function BestLayout(insns: seq<Insn>, chunks: seq<Chunk>, entryOffset: int, e: nat): (r: Bound)
    ensures AtLeast(r, 0)
  {
    if e == 0 then Inf
    else Min(BestLayout(insns, chunks, entryOffset, e - 1),
             BestCost(insns, chunks + [AheadChunk(entryOffset, e - 1)], EntryChunk(entryOffset, e - 1), 0))
  }

  /** Once some ENTRY size reaches cost 0, larger ranges of sizes cannot do better or worse. */
  lemma {:induction false} BestLayoutStaysZero(insns: seq<Insn>, chunks: seq<Chunk>, entryOffset: int, e1: nat, e2: nat)
    requires e1 <= e2
    requires BestLayout(insns, chunks, entryOffset, e1) == Fin(0)
    ensures BestLayout(insns, chunks, entryOffset, e2) == Fin(0)
    decreases e2 - e1
  {
    if e1 < e2 {
      BestLayoutStaysZero(insns, chunks, entryOffset, e1, e2 - 1);
    }
  }

  /** The schedule `s` is a layout for ENTRY size e. */
  ghost predicate LayoutFor(s: Schedule, insns: seq<Insn>, chunks: seq<Chunk>, entryOffset: int, e: int) {
    Completes(s, EntryChunk(entryOffset, e), insns, chunks + [AheadChunk(entryOffset, e)])
  }

  /**
    minimize: tries every ENTRY size below the total instruction length and
    returns a schedule of least cost; None where the source's
    `assert best_schedule is not None` fails.
  */
  method Minimize(insns: seq<Insn>, chunks: seq<Chunk>, entryOffset: int) returns (r: Option<Schedule>)
    ensures r.Some? <==> BestLayout(insns, chunks, entryOffset, Sum(insns)).Fin?
    ensures r.Some? ==> |r.value| > 0 && 0 <= r.value[0].chunk.size < Sum(insns)
    ensures r.Some? ==> LayoutFor(r.value, insns, chunks, entryOffset, r.value[0].chunk.size)
    ensures r.Some? ==> Fin(Waste(r.value)) == BestLayout(insns, chunks, entryOffset, Sum(insns))
  {
    var minCost := Inf;
    var bestSchedule: Option<Schedule> := None;
    var total := Sum(insns);
    for entrySize := 0 to total
      invariant minCost == BestLayout(insns, chunks, entryOffset, entrySize)
      invariant bestSchedule.Some? <==> minCost.Fin?
      invariant bestSchedule.Some? ==> |bestSchedule.value| > 0 && 0 <= bestSchedule.value[0].chunk.size < entrySize
      invariant bestSchedule.Some? ==> LayoutFor(bestSchedule.value, insns, chunks, entryOffset, bestSchedule.value[0].chunk.size)
      invariant bestSchedule.Some? ==> minCost == Fin(Waste(bestSchedule.value))
    {
      var entryChunk := EntryChunk(entryOffset, entrySize);
      var finalChunk := AheadChunk(entryOffset, entrySize);
      var schedule, cost, tail := Solve(insns, chunks + [finalChunk], entryChunk, 0, Inf, []);
      if schedule.Some? {
        assert schedule.value == tail;
      }
      if Below(cost, minCost) {
        minCost := cost;
        bestSchedule := schedule;
      }
      if cost == Fin(0) {
        BestLayoutStaysZero(insns, chunks, entryOffset, entrySize + 1, total);
        break;
      }
    }
    r := bestSchedule;
  }

  /**
    Choosing the ENTRY size is optimal too: no assignment of the instructions
    to ENTRY of any size below `e`, the chunks in any order the search may
    take and AHEAD last wastes fewer bytes than `BestLayout` accounts for.
  */
  lemma {:induction false} BestLayoutOptimal(t: Schedule, insns: seq<Insn>, chunks: seq<Chunk>, entryOffset: int,
                                             size: nat, e: nat)
    requires size < e
    requires Assigns(t, EntryChunk(entryOffset, size), insns, chunks + [AheadChunk(entryOffset, size)])
    ensures !Below(Fin(Waste(t)), BestLayout(insns, chunks, entryOffset, e))
    decreases e
  {
    if size < e - 1 {
      BestLayoutOptimal(t, insns, chunks, entryOffset, size, e - 1);
    } else {
      BestCostOptimal(t, EntryChunk(entryOffset, size), insns, chunks + [AheadChunk(entryOffset, size)], 0);
    }
  }
}
