/**
 * The in-flight index set shared by every sampler worker, seen as a state
 * machine over interleaved worker steps.
 *
 * Each worker repeatedly draws an index, tries to add it to the shared set
 * (a draw whose index is already present is rejected and the worker draws
 * again), runs its sample, and removes its index when it finishes. The add
 * and the remove are each one atomic step of the synchronized set; any
 * interleaving of the workers' steps is a sequence of `Step`s.
 */
module InFlight {
  import opened Wrappers

  type Worker = nat

  /**
   * `inFlight` is the shared set; `holding` records, for each worker
   * between a successful claim and its release, the index it holds.
   */
  datatype Pool = Pool(inFlight: set<int>, holding: map<Worker, int>)

  datatype Step =
    | Draw(worker: Worker, index: int)   // one iteration of the selection loop
    | Finish(worker: Worker)             // the release at the end of the sample

  /** Every in-flight index is owned by exactly one in-flight worker, and no other index is in the set. */
  ghost predicate Valid(p: Pool) {
    && p.inFlight == p.holding.Values
    && |p.inFlight| == |p.holding|
    && (forall w1, w2 :: w1 in p.holding && w2 in p.holding && p.holding[w1] == p.holding[w2] ==> w1 == w2)
  }

  const Idle: Pool := Pool({}, map[])

  /**
   * One atomic step. A draw by a worker that already holds an index is not
   * a step the sampler takes and changes nothing, as does a finish by an
   * idle worker.
   */
  function Apply(p: Pool, s: Step): (r: Pool)
    // Other workers keep what they hold.
    ensures forall v :: v != s.worker && v in p.holding ==> v in r.holding && r.holding[v] == p.holding[v]
    ensures forall v :: v != s.worker && v in r.holding ==> v in p.holding
    // A draw claims the drawn index for an idle worker exactly when no one has it.
    ensures s.Draw? && s.worker !in p.holding ==>
              (s.worker in r.holding <==> s.index !in p.inFlight)
              && (s.worker in r.holding ==> r.holding[s.worker] == s.index && r.inFlight == p.inFlight + {s.index})
              && (s.worker !in r.holding ==> r == p)
    // A draw by a worker already holding an index changes nothing.
    ensures s.Draw? && s.worker in p.holding ==> r == p
    // A finish hands back the worker's index, if any.
    ensures s.Finish? ==> s.worker !in r.holding
    ensures s.Finish? && s.worker in p.holding ==> r.inFlight == p.inFlight - {p.holding[s.worker]}
    ensures s.Finish? && s.worker !in p.holding ==> r == p
  {
    match s
    case Draw(w, i) =>
      if w in p.holding || i in p.inFlight then p
      else Pool(p.inFlight + {i}, p.holding[w := i])
    case Finish(w) =>
      if w in p.holding then Pool(p.inFlight - {p.holding[w]}, p.holding - {w})
      else p
  }

  function Run(p: Pool, steps: seq<Step>): Pool
    decreases |steps|
  {
    if steps == [] then p else Run(Apply(p, steps[0]), steps[1..])
  }

  lemma IdleValid()
    ensures Valid(Idle)
  {
  }

  lemma ClaimPreservesValid(p: Pool, w: Worker, i: int)
    requires Valid(p)
    ensures Valid(Apply(p, Draw(w, i)))
  {
    if w !in p.holding && i !in p.inFlight {
      var q := Apply(p, Draw(w, i));
      forall v | v in q.holding.Values ensures v in p.inFlight + {i} {
        var u :| u in q.holding && q.holding[u] == v;
        if u != w {
          assert p.holding[u] == v;
        }
      }
      forall v | v in p.inFlight + {i} ensures v in q.holding.Values {
        if v == i {
          assert q.holding[w] == v;
        } else {
          var u :| u in p.holding && p.holding[u] == v;
          assert q.holding[u] == v;
        }
      }
    }
  }

  lemma ReleasePreservesValid(p: Pool, w: Worker)
    requires Valid(p)
    ensures Valid(Apply(p, Finish(w)))
  {
    if w in p.holding {
      var q := Apply(p, Finish(w));
      var i := p.holding[w];
      assert i in p.holding.Values;
      forall v | v in q.holding.Values ensures v in p.inFlight - {i} {
        var u :| u in q.holding && q.holding[u] == v;
        assert p.holding[u] == v;
      }
      forall v | v in p.inFlight - {i} ensures v in q.holding.Values {
        var u :| u in p.holding && p.holding[u] == v;
        assert u != w;
        assert q.holding[u] == v;
      }
    }
  }

  lemma StepPreservesValid(p: Pool, s: Step)
    requires Valid(p)
    ensures Valid(Apply(p, s))
  {
    match s
    case Draw(w, i) => ClaimPreservesValid(p, w, i);
    case Finish(w) => ReleasePreservesValid(p, w);
  }

  /**
   * Whatever the interleaving, starting from the empty set, no two in-flight
   * workers ever hold the same index and the shared set holds exactly the
   * indices of in-flight workers.
   */
  lemma {:induction false} RunPreservesValid(p: Pool, steps: seq<Step>)
    requires Valid(p)
    ensures Valid(Run(p, steps))
    decreases |steps|
  {
    if steps != [] {
      StepPreservesValid(p, steps[0]);
      RunPreservesValid(Apply(p, steps[0]), steps[1..]);
    }
  }

  lemma ReachableHaveUniqueHolders(steps: seq<Step>, w1: Worker, w2: Worker)
    ensures var q := Run(Idle, steps);
            w1 in q.holding && w2 in q.holding && w1 != w2 ==> q.holding[w1] != q.holding[w2]
  {
    IdleValid();
    RunPreservesValid(Idle, steps);
  }

  // ---------------------------------------------------------------------
  // The selection loop as a sequence of draws
  // ---------------------------------------------------------------------

  /** The position of the first draw whose index is not in `claimed`: the draw at which the loop stops. */
  function FirstFree(draws: seq<int>, claimed: set<int>): (r: Option<nat>)
    ensures r.Some? ==> r.value < |draws| && draws[r.value] !in claimed
    ensures r.Some? ==> forall j :: 0 <= j < r.value ==> draws[j] in claimed
    ensures r.None? <==> forall j :: 0 <= j < |draws| ==> draws[j] in claimed
    decreases |draws|
  {
    if draws == [] then None
    else if draws[0] !in claimed then Some(0)
    else match FirstFree(draws[1..], claimed)
      case None => None
      case Some(j) => Some(j + 1)
  }

  function DrawSteps(w: Worker, draws: seq<int>): (steps: seq<Step>)
    ensures |steps| == |draws|
    ensures forall k :: 0 <= k < |draws| ==> steps[k] == Draw(w, draws[k])
  {
    seq(|draws|, k requires 0 <= k < |draws| => Draw(w, draws[k]))
  }

  /**
   * An idle worker drawing `draws` one after another ends up holding the
   * first draw that was free, which is added to the set; if none was free it
   * is still idle and nothing changed.
   */
  lemma {:induction false} DrawsClaimFirstFree(p: Pool, w: Worker, draws: seq<int>)
    requires w !in p.holding
    ensures Run(p, DrawSteps(w, draws)) ==
      match FirstFree(draws, p.inFlight)
      case None => p
      case Some(j) => Pool(p.inFlight + {draws[j]}, p.holding[w := draws[j]])
    decreases |draws|
  {
    if draws != [] {
      var steps := DrawSteps(w, draws);
      assert steps[1..] == DrawSteps(w, draws[1..]);
      if draws[0] in p.inFlight {
        assert Apply(p, steps[0]) == p;
        DrawsClaimFirstFree(p, w, draws[1..]);
      } else {
        var q := Apply(p, steps[0]);
        assert w in q.holding;
        RunHeldIgnoresDraws(q, w, draws[1..]);
      }
    }
  }

  /** Once a worker holds an index its further draws change nothing. */
  lemma {:induction false} RunHeldIgnoresDraws(p: Pool, w: Worker, draws: seq<int>)
    requires w in p.holding
    ensures Run(p, DrawSteps(w, draws)) == p
    decreases |draws|
  {
    if draws != [] {
      assert DrawSteps(w, draws)[1..] == DrawSteps(w, draws[1..]);
      RunHeldIgnoresDraws(p, w, draws[1..]);
    }
  }

  lemma {:induction false} RunConcat(p: Pool, a: seq<Step>, b: seq<Step>)
    ensures Run(p, a + b) == Run(Run(p, a), b)
    decreases |a|
  {
    if a != [] {
      assert (a + b)[0] == a[0] && (a + b)[1..] == a[1..] + b;
      RunConcat(Apply(p, a[0]), a[1..], b);
    } else {
      assert a + b == b;
    }
  }

  /**
   * A whole sample of one worker, in isolation: it draws until its claim
   * succeeds and then finishes. The index it claimed is given back, so the
   * pool is left exactly as it was found.
   */
  lemma SampleLeavesPoolAsFound(p: Pool, w: Worker, draws: seq<int>)
    requires Valid(p) && w !in p.holding
    requires FirstFree(draws, p.inFlight).Some?
    ensures Run(p, DrawSteps(w, draws) + [Finish(w)]) == p
  {
    RunConcat(p, DrawSteps(w, draws), [Finish(w)]);
    DrawsClaimFirstFree(p, w, draws);
    var i := draws[FirstFree(draws, p.inFlight).value];
    var q := Pool(p.inFlight + {i}, p.holding[w := i]);
    assert p.holding[w := i] - {w} == p.holding;
    assert Run(q, [Finish(w)]) == Apply(q, Finish(w));
  }

  // ---------------------------------------------------------------------
  // Progress and reuse
  // ---------------------------------------------------------------------

  /** The indices of a listing of `n` files. */
  function Indices(n: nat): (r: set<int>)
    ensures forall i :: i in r <==> 0 <= i < n
  {
    if n == 0 then {} else Indices(n - 1) + {n - 1}
  }

  lemma {:induction false} IndicesSize(n: nat)
    ensures |Indices(n)| == n
  {
    if n > 0 {
      IndicesSize(n - 1);
    }
  }

  /**
   * With `fileNum` files and fewer than `fileNum` workers in flight, some
   * index is free, so a draw can succeed.
   */
  lemma FreeIndexExists(p: Pool, fileNum: nat)
    requires Valid(p)
    requires |p.holding| < fileNum
    ensures exists i :: 0 <= i < fileNum && i !in p.inFlight
  {
    var all := Indices(fileNum);
    IndicesSize(fileNum);
    var free := all - p.inFlight;
    FreeLeftOver(all, p.inFlight);
    assert |free| > 0;
    var i :| i in free;
    assert 0 <= i < fileNum && i !in p.inFlight;
  }

  /** Taking a smaller set out of a larger one leaves something. */
  lemma FreeLeftOver<T>(all: set<T>, busy: set<T>)
    requires |busy| < |all|
    ensures |all - busy| > 0
  {
  }

  /**
   * When every index is in flight, every draw is rejected: the selection
   * loop has no bound and would keep drawing until some worker finishes.
   */
  lemma SaturatedRejectsDraws(p: Pool, fileNum: nat, w: Worker, draws: seq<int>)
    requires forall i :: 0 <= i < fileNum ==> i in p.inFlight
    requires forall k :: 0 <= k < |draws| ==> 0 <= draws[k] < fileNum
    ensures FirstFree(draws, p.inFlight) == None
  {
  }

  /** Release does not exclude an index for good: another worker may claim it right after. */
  lemma ReleasedIndexReclaimable(p: Pool, w: Worker, other: Worker)
    requires Valid(p)
    requires w in p.holding && other !in p.holding
    ensures var q := Apply(Apply(p, Finish(w)), Draw(other, p.holding[w]));
            other in q.holding && q.holding[other] == p.holding[w] && w !in q.holding
  {
  }

  /**
   * One file, two workers: the second worker's draws are rejected while the
   * first holds index 0, and succeed with the same index once it finishes.
   */
  lemma OneFileTwoWorkers(a: Worker, b: Worker)
    requires a != b
    ensures var held := Apply(Idle, Draw(a, 0));
            && Apply(held, Draw(b, 0)) == held
            && Apply(Apply(held, Finish(a)), Draw(b, 0)) == Pool({0}, map[b := 0])
  {
    var held := Apply(Idle, Draw(a, 0));
    assert held == Pool({0}, map[a := 0]);
    assert (map[a := 0] - {a}) == map[];
  }
}
