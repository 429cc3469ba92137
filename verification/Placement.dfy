/** Which CPUs each worker is placed on, and which seed it gets. */
module Placement {
  import opened Integers

  // ---- CPUs -----------------------------------------------------------------------------------

  /** Going round the CPUs from the first. */
  function Cpu(all: seq<nat>, k: nat): nat
    requires all != []
  {
    all[k % |all|]
  }

  /** So many CPUs, going round from a place. */
  function CpusFrom(first: nat, count: nat, all: seq<nat>): (r: seq<nat>)
    requires all != []
    ensures |r| == count && forall i :: 0 <= i < count ==> r[i] == Cpu(all, first + i)
  {
    seq<nat>(count, index requires 0 <= index < count => Cpu(all, first + index))
  }

  function CpusOf(slot: nat, threads: nat, all: seq<nat>): (r: seq<nat>)
    ensures |r| == if |all| < threads then |all| else threads
  {
    if all == [] then [] else CpusFrom(slot * threads, if threads < |all| then threads else |all|, all)
  }

  lemma StartsAnywhere(a: nat, b: nat, n: nat)
    requires n > 0
    ensures (a % n + b) % n == (a + b) % n
  {
    var q := a / n;
    assert a == q * n + a % n;
    ModOfSum(a % n + b, q, n);
    assert a + b == (a % n + b) + q * n;
  }

  lemma {:induction false} ModOfSum(x: nat, q: nat, n: nat)
    requires n > 0
    ensures (x + q * n) % n == x % n
  {
    var y := x / n;
    assert x == y * n + x % n;
    assert x + q * n == (y + q) * n + x % n;
    SameRemainder(x + q * n, y + q, x % n, n);
  }

  lemma MultipleIsFar(d: int, n: int)
    requires n > 0
    ensures d >= 1 ==> d * n >= n
    ensures d <= -1 ==> d * n <= -n
  {
    if d >= 1 {
      assert (d - 1) * n >= 0;
    } else if d <= -1 {
      assert (-1 - d) * n >= 0;
    }
  }

  lemma SmallMultiple(d: int, n: int)
    requires -n < d * n < n
    ensures d == 0
  {
    MultipleIsFar(d, n);
  }

  lemma SameRemainder(x: nat, q: nat, r: nat, n: nat)
    requires r < n && x == q * n + r
    ensures x % n == r && x / n == q
  {
    var p, s := x / n, x % n;
    assert x == p * n + s && s < n;
    assert (p - q) * n == r - s;
    SmallMultiple(p - q, n);
  }

  lemma FromStart(a: nat, b: nat, all: seq<nat>)
    requires all != []
    ensures Cpu(all, a % |all| + b) == Cpu(all, a + b)
  {
    StartsAnywhere(a, b, |all|);
  }

  method AssignCpus(slot: nat, threads: nat, all: seq<nat>) returns (cpus: seq<nat>)
    ensures cpus == CpusOf(slot, threads, all)
  {
    if all == [] {
      return [];
    }
    var count := if threads < |all| then threads else |all|;
    cpus := AssignFrom(slot * threads, count, all);
  }

  method AssignFrom(first: nat, count: nat, all: seq<nat>) returns (cpus: seq<nat>)
    requires all != []
    ensures cpus == CpusFrom(first, count, all)
  {
    hide Cpu;
    cpus := [];
    var start := first % |all|;
    for index := 0 to count
      invariant cpus == CpusFrom(first, count, all)[..index]
    {
      FromStart(first, index, all);
      cpus := cpus + [Cpu(all, start + index)];
    }
  }

  predicate Distinct(all: seq<nat>) {
    forall i, j :: 0 <= i < j < |all| ==> all[i] != all[j]
  }

  lemma NearbyDiffer(a: nat, b: nat, n: nat)
    requires a < b < a + n
    ensures a % n != b % n
  {
    var p, q := a / n, b / n;
    assert a == p * n + a % n && b == q * n + b % n;
    if a % n == b % n {
      assert (q - p) * n == b - a;
      SmallMultiple(q - p, n);
    }
  }

  /** A worker's CPUs are all different. */
  lemma CpusDiffer(slot: nat, threads: nat, all: seq<nat>)
    requires Distinct(all)
    ensures Distinct(CpusOf(slot, threads, all))
  {
    var r := CpusOf(slot, threads, all);
    forall i, j | 0 <= i < j < |r| ensures r[i] != r[j] {
      NearbyDiffer(slot * threads + i, slot * threads + j, |all|);
    }
  }

  /** The CPUs of the first workers, one worker after another. */
  function AllCpus(workers: nat, threads: nat, all: seq<nat>): seq<nat> {
    if workers == 0 then [] else AllCpus(workers - 1, threads, all) + CpusOf(workers - 1, threads, all)
  }

  /** Round and round the CPUs. */
  function Cycle(all: seq<nat>, m: nat): (r: seq<nat>)
    requires all != []
    ensures |r| == m && forall k :: 0 <= k < m ==> r[k] == all[k % |all|]
  {
    seq(m, k requires 0 <= k < m => all[k % |all|])
  }

  /** Workers with no more threads than CPUs go on where the one before left off. */
  lemma {:induction false} WorkersCycle(workers: nat, threads: nat, all: seq<nat>)
    requires all != [] && threads <= |all|
    ensures AllCpus(workers, threads, all) == Cycle(all, workers * threads)
  {
    if workers > 0 {
      var m := (workers - 1) * threads;
      WorkersCycle(workers - 1, threads, all);
      assert workers * threads == m + threads;
      var whole := Cycle(all, m + threads);
      assert whole[..m] == Cycle(all, m);
      assert whole[m..] == CpusOf(workers - 1, threads, all);
      assert whole == whole[..m] + whole[m..];
    }
  }

  lemma NextRemainder(m: nat, n: nat)
    requires n > 0
    ensures if m % n == n - 1 then (m + 1) / n == m / n + 1 && (m + 1) % n == 0
            else (m + 1) / n == m / n && (m + 1) % n == m % n + 1
  {
    var q, r := m / n, m % n;
    assert m == q * n + r;
    if r == n - 1 {
      assert m + 1 == (q + 1) * n + 0;
      SameRemainder(m + 1, q + 1, 0, n);
    } else {
      SameRemainder(m + 1, q, r + 1, n);
    }
  }

  /** Going round m times over, each CPU comes up the quotient, and the first few once more. */
  lemma {:induction false} CycleIsBalanced(all: seq<nat>, m: nat, c: nat)
    requires all != [] && Distinct(all) && c < |all|
    ensures multiset(Cycle(all, m))[all[c]] == m / |all| + if c < m % |all| then 1 else 0
  {
    var n := |all|;
    if m == 0 {
      SameRemainder(0, 0, 0, n);
      assert Cycle(all, 0) == [];
    } else {
      CycleIsBalanced(all, m - 1, c);
      NextRemainder(m - 1, n);
      assert Cycle(all, m) == Cycle(all, m - 1) + [all[(m - 1) % n]];
      assert all[c] == all[(m - 1) % n] <==> c == (m - 1) % n;
    }
  }

  /** Over any number of workers every CPU is used equally often, to within one. */
  lemma PlacementIsBalanced(workers: nat, threads: nat, all: seq<nat>, c: nat)
    requires Distinct(all) && threads <= |all| && c < |all|
    ensures var uses := multiset(AllCpus(workers, threads, all))[all[c]];
            var m := workers * threads;
            uses == m / |all| + if c < m % |all| then 1 else 0
  {
    WorkersCycle(workers, threads, all);
    CycleIsBalanced(all, workers * threads, c);
  }

  // ---- Seeds ----------------------------------------------------------------------------------

  const SEED_STRIDE := 0x9E37_79B9_7F4A_7C15

  /** What undoes a multiplication by the stride, modulo the word. */
  const STRIDE_INVERSE := 0xF1DE_83E1_9937_733D

  /** The sum and the product wrap. */
  function SeedOf(seed: nat, slot: nat): nat {
    (seed + slot * SEED_STRIDE) % WORD
  }

  /** The first slot has the seed itself, and each next one is the stride further, wrapping. */
  lemma SeedsAreSpaced(seed: nat, slot: nat)
    requires seed < WORD
    ensures SeedOf(seed, 0) == seed
    ensures SeedOf(seed, slot + 1) == (SeedOf(seed, slot) + SEED_STRIDE) % WORD
  {
    var n := seed + slot * SEED_STRIDE;
    assert (slot + 1) * SEED_STRIDE == slot * SEED_STRIDE + SEED_STRIDE;
    AddedAfter(n, SEED_STRIDE);
  }

  lemma AddedAfter(n: nat, step: nat)
    ensures (n + step) % WORD == (n % WORD + step) % WORD
  {
    var rest := n % WORD + step;
    assert n + step == n / WORD * WORD + rest == (n / WORD + rest / WORD) * WORD + rest % WORD;
  }

  lemma StrideInverts()
    ensures SEED_STRIDE * STRIDE_INVERSE % WORD == 1
  {
  }

  lemma OnlyZero(d: int, k: int)
    requires d == k * WORD && -WORD < d < WORD
    ensures d == 0
  {
  }

  /** No two slots share a seed. */
  lemma SeedsDiffer(seed: nat, a: nat, b: nat)
    requires a < WORD && b < WORD && SeedOf(seed, a) == SeedOf(seed, b)
    ensures a == b
  {
    StrideInverts();
    var d := a - b;
    var p := (seed + a * SEED_STRIDE) / WORD - (seed + b * SEED_STRIDE) / WORD;
    assert d * SEED_STRIDE == p * WORD;
    var k := SEED_STRIDE * STRIDE_INVERSE / WORD;
    assert SEED_STRIDE * STRIDE_INVERSE == k * WORD + 1;
    assert d * (k * WORD + 1) == d * k * WORD + d;
    assert d * (SEED_STRIDE * STRIDE_INVERSE) == (d * SEED_STRIDE) * STRIDE_INVERSE == p * STRIDE_INVERSE * WORD;
    OnlyZero(d, p * STRIDE_INVERSE - d * k);
  }
}
