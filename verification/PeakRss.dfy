/** The process-tree memory sampler of ci/measure-peak-rss.py: `tree_rss` over one snapshot of the
    process table, and the peaks `Sampler.run` keeps over a run. */
module PeakRss {
  import opened Basics

  /** One reading of the process table: the parent and the resident size of each process. */
  datatype Snapshot = Snapshot(ppid: map<nat, nat>, rss: map<nat, nat>)

  // ------------------------------------------------------------------- reachability

  /** Each process of `path` is the parent of the next. */
  predicate IsPath(ppid: map<nat, nat>, path: seq<nat>) {
    |path| <= 1 ||
    (var last := |path| - 1;
     path[last] in ppid && ppid[path[last]] == path[last - 1] && IsPath(ppid, path[..last]))
  }

  /** `pid` is the root or one of its descendants. */
  ghost predicate IsDescendant(ppid: map<nat, nat>, root: nat, pid: nat) {
    exists path: seq<nat> :: path != [] && path[0] == root && path[|path| - 1] == pid && IsPath(ppid, path)
  }

  ghost function Tree(s: Snapshot, root: nat): set<nat> {
    set pid | pid in s.ppid.Keys + {root} && IsDescendant(s.ppid, root, pid)
  }

  /** The processes of the tree whose size was read. */
  ghost function Counted(s: Snapshot, root: nat): (r: set<nat>)
    ensures r <= s.rss.Keys
  {
    Tree(s, root) * s.rss.Keys
  }

  lemma RootIsDescendant(ppid: map<nat, nat>, root: nat)
    ensures IsDescendant(ppid, root, root)
  {
    assert IsPath(ppid, [root]) && [root][0] == root;
  }

  lemma ChildIsDescendant(ppid: map<nat, nat>, root: nat, pid: nat, child: nat)
    requires IsDescendant(ppid, root, pid) && child in ppid && ppid[child] == pid
    ensures IsDescendant(ppid, root, child)
  {
    var path: seq<nat> :| path != [] && path[0] == root && path[|path| - 1] == pid && IsPath(ppid, path);
    var longer := path + [child];
    assert longer[..|longer| - 1] == path;
    assert longer != [] && longer[0] == root && longer[|longer| - 1] == child && IsPath(ppid, longer);
  }

  /** A set with the root that holds the children of its members holds the tree. */
  lemma {:induction false} ClosedHoldsPath(ppid: map<nat, nat>, seen: set<nat>, path: seq<nat>)
    requires path != [] && path[0] in seen && IsPath(ppid, path)
    requires forall pid | pid in ppid && ppid[pid] in seen :: pid in seen
    ensures path[|path| - 1] in seen
    decreases |path|
  {
    if |path| > 1 { ClosedHoldsPath(ppid, seen, path[..|path| - 1]); }
  }

  lemma ClosedIsTree(s: Snapshot, root: nat, seen: set<nat>)
    requires root in seen && seen <= Tree(s, root)
    requires forall pid | pid in s.ppid && s.ppid[pid] in seen :: pid in seen
    ensures seen == Tree(s, root)
  {
    forall pid | pid in Tree(s, root) ensures pid in seen {
      var path: seq<nat> :| path != [] && path[0] == root && path[|path| - 1] == pid && IsPath(s.ppid, path);
      ClosedHoldsPath(s.ppid, seen, path);
    }
  }

  // ------------------------------------------------------------------- sums over sets

  ghost function Sum(f: map<nat, nat>, pids: set<nat>): nat
    requires pids <= f.Keys
  {
    if pids == {} then 0 else
      var pid :| pid in pids;
      f[pid] + Sum(f, pids - {pid})
  }

  lemma {:induction false} SumTake(f: map<nat, nat>, pids: set<nat>, pid: nat)
    requires pids <= f.Keys && pid in pids
    ensures Sum(f, pids) == f[pid] + Sum(f, pids - {pid})
    decreases pids
  {
    var first :| first in pids && Sum(f, pids) == f[first] + Sum(f, pids - {first});
    if first != pid {
      SumTake(f, pids - {first}, pid);
      SumTake(f, pids - {pid}, first);
      assert pids - {first} - {pid} == pids - {pid} - {first};
    }
  }

  lemma SumAdd(f: map<nat, nat>, pids: set<nat>, pid: nat)
    requires pids <= f.Keys && pid in f && pid !in pids
    ensures Sum(f, pids + {pid}) == Sum(f, pids) + f[pid]
  {
    SumTake(f, pids + {pid}, pid);
    assert pids + {pid} - {pid} == pids;
  }

  lemma {:induction false} SumGrows(f: map<nat, nat>, g: map<nat, nat>, a: set<nat>, b: set<nat>)
    requires a <= b && a <= f.Keys && b <= g.Keys && forall pid | pid in a :: f[pid] <= g[pid]
    ensures Sum(f, a) <= Sum(g, b)
    decreases a
  {
    if a != {} {
      var pid :| pid in a;
      SumTake(f, a, pid);
      SumTake(g, b, pid);
      SumGrows(f, g, a - {pid}, b - {pid});
    }
  }

  // ------------------------------------------------------------------- one snapshot

  /** The largest of some sizes, or 0. */
  predicate IsLargest(f: map<nat, nat>, pids: set<nat>, largest: nat)
    requires pids <= f.Keys
  {
    (forall pid | pid in pids :: f[pid] <= largest) && (largest == 0 || exists pid | pid in pids :: f[pid] == largest)
  }

  predicate AreKids(ppid: map<nat, nat>, pid: nat, kids: seq<nat>) {
    (forall k | k in kids :: k in ppid && ppid[k] == pid) && (forall k | k in ppid && ppid[k] == pid :: k in kids)
  }

  function KidsIn(children: map<nat, seq<nat>>, pid: nat): seq<nat> {
    if pid in children then children[pid] else []
  }

  /** The children of each process. */
  method Children(ppid: map<nat, nat>) returns (children: map<nat, seq<nat>>)
    ensures forall pid :: AreKids(ppid, pid, KidsIn(children, pid))
  {
    children := map[];
    var left := ppid.Keys;
    while left != {}
      invariant left <= ppid.Keys
      invariant forall p, k :: k in KidsIn(children, p) <==> k in ppid && k !in left && ppid[k] == p
    {
      var pid :| pid in left;
      var parent := ppid[pid];
      ghost var was := children;
      children := children[parent := KidsIn(children, parent) + [pid]];
      assert KidsIn(children, parent) == KidsIn(was, parent) + [pid];
      assert forall p | p != parent :: KidsIn(children, p) == KidsIn(was, p);
      left := left - {pid};
    }
  }

  /** Where the walk stands: the processes seen and those waiting hold every child of a seen one. */
  ghost predicate MembersOk(s: Snapshot, root: nat, seen: set<nat>, stack: seq<nat>) {
    && seen <= Tree(s, root) && (forall pid | pid in stack :: pid in Tree(s, root))
    && (root in seen || root in stack)
    && (forall pid | pid in s.ppid && s.ppid[pid] in seen :: pid in seen || pid in stack)
  }

  /** The running figures are those of the processes seen. */
  ghost predicate FiguresOk(s: Snapshot, seen: set<nat>, total: nat, largest: nat, count: nat) {
    var read := seen * s.rss.Keys;
    total == Sum(s.rss, read) && IsLargest(s.rss, read, largest) && count == |read|
  }

  lemma TreeHolds(s: Snapshot, root: nat, pid: nat, child: nat)
    requires pid in Tree(s, root) && child in s.ppid && s.ppid[child] == pid
    ensures child in Tree(s, root)
  {
    ChildIsDescendant(s.ppid, root, pid, child);
  }

  lemma MembersStep(s: Snapshot, root: nat, seen: set<nat>, stack: seq<nat>, pid: nat, kids: seq<nat>)
    requires stack != [] && pid == stack[|stack| - 1] && MembersOk(s, root, seen, stack) && AreKids(s.ppid, pid, kids)
    ensures MembersOk(s, root, seen + {pid}, stack[..|stack| - 1] + kids) && pid in Tree(s, root)
  {
    hide Tree;
    assert stack == stack[..|stack| - 1] + [pid];
    forall k | k in kids ensures k in Tree(s, root) { TreeHolds(s, root, pid, k); }
  }

  lemma FiguresStep(s: Snapshot, seen: set<nat>, total: nat, largest: nat, count: nat, pid: nat)
    requires FiguresOk(s, seen, total, largest, count) && pid !in seen
    ensures if pid in s.rss then
              var size := s.rss[pid];
              FiguresOk(s, seen + {pid}, total + size, if size > largest then size else largest, count + 1)
            else FiguresOk(s, seen + {pid}, total, largest, count)
  {
    hide Sum;
    var was, now := seen * s.rss.Keys, (seen + {pid}) * s.rss.Keys;
    if pid in s.rss {
      assert now == was + {pid};
      SumAdd(s.rss, was, pid);
    } else {
      assert now == was;
    }
  }

  lemma MembersSkip(s: Snapshot, root: nat, seen: set<nat>, stack: seq<nat>)
    requires stack != [] && stack[|stack| - 1] in seen && MembersOk(s, root, seen, stack)
    ensures MembersOk(s, root, seen, stack[..|stack| - 1])
  {
    hide Tree;
    assert stack == stack[..|stack| - 1] + [stack[|stack| - 1]];
  }

  /** `tree_rss`: on any parent map, cyclic ones included, the sum, the largest and the number of
      the sizes read over exactly the root and its descendants, each once. */
  method TreeRss(root: nat, s: Snapshot) returns (total: nat, largest: nat, count: nat)
    ensures total == Sum(s.rss, Counted(s, root)) && IsLargest(s.rss, Counted(s, root), largest)
    ensures count == |Counted(s, root)|
  {
    hide Tree, Sum, IsLargest, MembersOk, FiguresOk, AreKids;
    var children := Children(s.ppid);
    total, largest, count := 0, 0, 0;
    var stack, seen := [root], {};
    WalkStart(s, root);
    ghost var all := Tree(s, root);
    while stack != []
      invariant MembersOk(s, root, seen, stack) && FiguresOk(s, seen, total, largest, count)
      decreases |all - seen|, |stack|
    {
      var pid := stack[|stack| - 1];
      if pid in seen {
        MembersSkip(s, root, seen, stack);
        stack := stack[..|stack| - 1];
        continue;
      }
      var kids := if pid in children then children[pid] else [];
      assert kids == KidsIn(children, pid);
      MembersStep(s, root, seen, stack, pid, kids);
      FiguresStep(s, seen, total, largest, count, pid);
      SmallerWithout(all - (seen + {pid}), all - seen, pid);
      stack, seen := stack[..|stack| - 1] + kids, seen + {pid};
      if pid in s.rss {
        var size := s.rss[pid];
        total := total + size;
        largest := if size > largest then size else largest;
        count := count + 1;
      }
    }
    WalkEnd(s, root, seen, total, largest, count);
  }

  lemma WalkStart(s: Snapshot, root: nat)
    ensures MembersOk(s, root, {}, [root]) && FiguresOk(s, {}, 0, 0, 0)
  {
    RootIsDescendant(s.ppid, root);
    assert {} * s.rss.Keys == {};
  }

  lemma WalkEnd(s: Snapshot, root: nat, seen: set<nat>, total: nat, largest: nat, count: nat)
    requires MembersOk(s, root, seen, []) && FiguresOk(s, seen, total, largest, count)
    ensures total == Sum(s.rss, Counted(s, root)) && IsLargest(s.rss, Counted(s, root), largest)
    ensures count == |Counted(s, root)|
  {
    hide Tree, Sum, IsLargest;
    ClosedIsTree(s, root, seen);
  }

  // ------------------------------------------------------------------- the sampler

  ghost function Total(s: Snapshot, root: nat): nat {
    Sum(s.rss, Counted(s, root))
  }

  /** The largest total of the first `n` snapshots. */
  ghost function Peak(samples: seq<Snapshot>, root: nat, n: nat): nat
    requires n <= |samples|
  {
    if n == 0 then 0 else
      var before := Peak(samples, root, n - 1);
      if Total(samples[n - 1], root) > before then Total(samples[n - 1], root) else before
  }

  /** What the peak fields hold together: the figures of one snapshot, or of none. */
  ghost predicate IsPeakOf(samples: seq<Snapshot>, root: nat, n: nat, peak: nat, largest: nat, procs: nat)
    requires n <= |samples|
  {
    (peak == largest == procs == 0) ||
    exists k | 0 <= k < n ::
      && peak == Total(samples[k], root) && procs == |Counted(samples[k], root)|
      && IsLargest(samples[k].rss, Counted(samples[k], root), largest)
  }

  class Sampler {
    const root: nat
    var samples: nat
    var peak: nat
    var peakLargest: nat
    var peakProcs: nat

    constructor (root: nat)
      ensures this.root == root && samples == peak == peakLargest == peakProcs == 0
    {
      this.root := root;
      samples, peak, peakLargest, peakProcs := 0, 0, 0, 0;
    }

    /** The loop of `Sampler.run`, over the snapshots taken until the stop event. */
    method Run(taken: seq<Snapshot>)
      requires samples == peak == peakLargest == peakProcs == 0
      modifies this
      ensures samples == |taken| && peak == Peak(taken, root, |taken|)
      ensures IsPeakOf(taken, root, |taken|, peak, peakLargest, peakProcs)
    {
      hide Counted, Sum, IsLargest;
      for i := 0 to |taken|
        invariant samples == i && peak == Peak(taken, root, i)
        invariant IsPeakOf(taken, root, i, peak, peakLargest, peakProcs)
      {
        var total, largest, count := TreeRss(root, taken[i]);
        samples := samples + 1;
        if total > peak {
          peak, peakLargest, peakProcs := total, largest, count;
        }
      }
    }
  }

  // ------------------------------------------------------------------- bounds on the peak

  /** The largest reading of one process in the tree over the first `n` snapshots. */
  ghost function ProcessPeak(samples: seq<Snapshot>, root: nat, pid: nat, n: nat): nat
    requires n <= |samples|
  {
    if n == 0 then 0 else
      var before := ProcessPeak(samples, root, pid, n - 1);
      var s := samples[n - 1];
      if pid in Counted(s, root) && s.rss[pid] > before then s.rss[pid] else before
  }

  ghost function AllCounted(samples: seq<Snapshot>, root: nat, n: nat): set<nat>
    requires n <= |samples|
  {
    if n == 0 then {} else AllCounted(samples, root, n - 1) + Counted(samples[n - 1], root)
  }

  ghost function ProcessPeaks(samples: seq<Snapshot>, root: nat): map<nat, nat> {
    map pid | pid in AllCounted(samples, root, |samples|) :: ProcessPeak(samples, root, pid, |samples|)
  }

  lemma {:induction false} ReadingBelowPeaks(samples: seq<Snapshot>, root: nat, k: nat, n: nat, pid: nat)
    requires k < n <= |samples| && pid in Counted(samples[k], root)
    ensures pid in AllCounted(samples, root, n) && samples[k].rss[pid] <= ProcessPeak(samples, root, pid, n)
    decreases n
  {
    hide Counted;
    if k < n - 1 { ReadingBelowPeaks(samples, root, k, n - 1, pid); }
  }

  lemma {:induction false} PeakIsReached(samples: seq<Snapshot>, root: nat, n: nat)
    requires n <= |samples|
    ensures forall k | 0 <= k < n :: Total(samples[k], root) <= Peak(samples, root, n)
    ensures Peak(samples, root, n) == 0 || exists k | 0 <= k < n :: Total(samples[k], root) == Peak(samples, root, n)
  {
    hide Total;
    if n > 0 { PeakIsReached(samples, root, n - 1); }
  }

  /** The peak is at least every single reading, and at most the sum of the per-process peaks. */
  lemma PeakIsBounded(samples: seq<Snapshot>, root: nat)
    ensures forall k, pid | 0 <= k < |samples| && pid in Counted(samples[k], root) ::
              samples[k].rss[pid] <= Peak(samples, root, |samples|)
    ensures Peak(samples, root, |samples|) <= Sum(ProcessPeaks(samples, root), AllCounted(samples, root, |samples|))
  {
    hide Counted, Sum, Peak, AllCounted, ProcessPeak;
    PeakIsReached(samples, root, |samples|);
    forall k, pid | 0 <= k < |samples| && pid in Counted(samples[k], root)
      ensures samples[k].rss[pid] <= Total(samples[k], root)
    {
      SumTake(samples[k].rss, Counted(samples[k], root), pid);
    }
    forall k | 0 <= k < |samples|
      ensures Total(samples[k], root) <= Sum(ProcessPeaks(samples, root), AllCounted(samples, root, |samples|))
    {
      var s := samples[k];
      forall pid | pid in Counted(s, root)
        ensures pid in ProcessPeaks(samples, root) && s.rss[pid] <= ProcessPeaks(samples, root)[pid]
        ensures pid in AllCounted(samples, root, |samples|)
      {
        ReadingBelowPeaks(samples, root, k, |samples|, pid);
      }
      SumGrows(s.rss, ProcessPeaks(samples, root), Counted(s, root), AllCounted(samples, root, |samples|));
    }
  }
}
