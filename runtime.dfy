/**
  The runtime closure and its coverage. From a hash, the walk follows the
  references of a cache record, the deriver of an output without a record,
  and the resolved input outputs of a derivation; sources and unknown hashes
  are leaves. Coverage counts the records found, sums their sizes and lists
  the names of what is missing, sorted and without duplicates.
*/
module Runtime {
  import opened Wrappers
  import opened Derivation
  import opened Narinfo
  import opened StorePaths
  import opened Store
  import opened SortedNames

  // ---------------------------------------------------------------------------
  // The successors of a hash

  /**
    The output paths an input derivation resolves to across a list of input
    derivations, in order (`flat_map` over `InputDrv::resolve`).
  */
  function ResolvedPaths(inputs: seq<InputDrv>, resolve: InputDrv -> seq<string>): seq<string> {
    if inputs == [] then [] else resolve(inputs[0]) + ResolvedPaths(inputs[1..], resolve)
  }

  /**
    The `expect`s of `from_name` and `from_path` when the walk reaches `k`:
    every reference name (`refNames` splits a `References` line) and every
    resolved path is long enough to hold a hash.
  */
  ghost predicate ResolvableAt(store: Entries, refNames: string -> seq<string>, resolve: InputDrv -> seq<string>, k: StoreHash) {
    k in store ==>
      match store[k]
      case NarInfoItem(info) =>
        forall i :: 0 <= i < |refNames(info.references)| ==> |refNames(info.references)[i]| >= HashLength
      case DrvItem(drv) =>
        forall i :: 0 <= i < |ResolvedPaths(drv.inputDrvs, resolve)| ==>
          |FileName(ResolvedPaths(drv.inputDrvs, resolve)[i])| >= HashLength
      case _ => true
  }

  /** Every key of the store could be reached without a failing `expect`. */
  ghost predicate Resolvable(store: Entries, refNames: string -> seq<string>, resolve: InputDrv -> seq<string>) {
    forall k :: k in store ==> ResolvableAt(store, refNames, resolve, k)
  }

  /** The hashes `add_runtime_closure_of` continues with from `h`, in order. */
  function Successors(store: Entries, refNames: string -> seq<string>, resolve: InputDrv -> seq<string>, h: StoreHash)
    : (r: seq<StoreHash>)
    requires ResolvableAt(store, refNames, resolve, h)
    ensures h !in store || store[h].Source? ==> r == []
    ensures h in store && store[h].Output? ==> r == [store[h].deriver]
    ensures h in store && store[h].NarInfoItem? ==>
      var names := refNames(store[h].info.references);
      |r| == |names| && forall i :: 0 <= i < |r| ==> names[i] == r[i] + names[i][HashLength..]
    ensures h in store && store[h].DrvItem? ==>
      var paths := ResolvedPaths(store[h].drv.inputDrvs, resolve);
      |r| == |paths| && forall i :: 0 <= i < |r| ==> r[i] == FromPath(paths[i])
  {
    if h !in store then []
    else
      match store[h]
      case NarInfoItem(info) =>
        var names := refNames(info.references);
        seq(|names|, i requires 0 <= i < |names| => FromName(names[i]))
      case Output(_, deriver) => [deriver]
      case DrvItem(drv) =>
        var paths := ResolvedPaths(drv.inputDrvs, resolve);
        seq(|paths|, i requires 0 <= i < |paths| => FromPath(paths[i]))
      case Source(_) => []
  }

  ghost function SuccessorSet(store: Entries, refNames: string -> seq<string>, resolve: InputDrv -> seq<string>, h: StoreHash)
    : set<StoreHash>
    requires ResolvableAt(store, refNames, resolve, h)
  {
    var next := Successors(store, refNames, resolve, h);
    set i | 0 <= i < |next| :: next[i]
  }

  ghost function Prefix(next: seq<StoreHash>, n: nat): set<StoreHash>
    requires n <= |next|
  {
    set i | 0 <= i < n :: next[i]
  }

  lemma PrefixStep(next: seq<StoreHash>, n: nat)
    requires n < |next|
    ensures Prefix(next, n + 1) == Prefix(next, n) + {next[n]}
  {
  }

  /** The walk can leave `k` and then stays in `r`. */
  ghost predicate ClosedAt(store: Entries, refNames: string -> seq<string>, resolve: InputDrv -> seq<string>,
                           k: StoreHash, r: set<StoreHash>)
  {
    ResolvableAt(store, refNames, resolve, k) && SuccessorSet(store, refNames, resolve, k) <= r
  }

  /** Every element of `r` outside `base` can be left, with all its successors in `r`. */
  ghost predicate ClosedOutside(store: Entries, refNames: string -> seq<string>, resolve: InputDrv -> seq<string>,
                                r: set<StoreHash>, base: set<StoreHash>)
  {
    forall k :: k in r && k !in base ==> ClosedAt(store, refNames, resolve, k, r)
  }

  /** A finite set of hashes the walk cannot leave. */
  ghost function Universe(store: Entries, refNames: string -> seq<string>, resolve: InputDrv -> seq<string>)
    : set<StoreHash>
    requires Resolvable(store, refNames, resolve)
  {
    store.Keys + set k, i | k in store && 0 <= i < |Successors(store, refNames, resolve, k)| ::
      Successors(store, refNames, resolve, k)[i]
  }

  /** Together with any root, the universe is closed under taking successors. */
  lemma UniverseClosed(store: Entries, refNames: string -> seq<string>, resolve: InputDrv -> seq<string>, root: StoreHash)
    requires Resolvable(store, refNames, resolve)
    ensures ClosedOutside(store, refNames, resolve, Universe(store, refNames, resolve) + {root}, {})
  {
    var u := Universe(store, refNames, resolve);
    forall k | k in u + {root}
      ensures ClosedAt(store, refNames, resolve, k, u + {root})
    {
      var next := Successors(store, refNames, resolve, k);
      forall i | 0 <= i < |next| ensures next[i] in u {
        assert k in store;
      }
    }
  }

  /** One recursive call keeps the new hashes inside every closed set containing the start. */
  lemma StepMinimal(store: Entries, refNames: string -> seq<string>, resolve: InputDrv -> seq<string>,
                    base: set<StoreHash>, hash: StoreHash, before: set<StoreHash>, after: set<StoreHash>, s: StoreHash)
    requires hash !in base && base <= before
    requires ResolvableAt(store, refNames, resolve, hash) && s in SuccessorSet(store, refNames, resolve, hash)
    requires forall r :: ClosedOutside(store, refNames, resolve, r, base) && hash in r ==> before <= base + r
    requires forall r :: ClosedOutside(store, refNames, resolve, r, before) && s in r ==> after <= before + r
    ensures forall r :: ClosedOutside(store, refNames, resolve, r, base) && hash in r ==> after <= base + r
  {
    forall r | ClosedOutside(store, refNames, resolve, r, base) && hash in r
      ensures after <= base + r
    {
      assert ClosedOutside(store, refNames, resolve, r, before);
      assert s in r;
    }
  }

  /** One recursive call keeps every hash added, other than the start, closed. */
  lemma StepClosed(store: Entries, refNames: string -> seq<string>, resolve: InputDrv -> seq<string>,
                   base: set<StoreHash>, hash: StoreHash, before: set<StoreHash>, after: set<StoreHash>)
    requires before <= after
    requires forall k :: k in before && k !in base && k != hash ==> ClosedAt(store, refNames, resolve, k, before)
    requires forall k :: k in after && k !in before ==> ClosedAt(store, refNames, resolve, k, after)
    ensures forall k :: k in after && k !in base && k != hash ==> ClosedAt(store, refNames, resolve, k, after)
  {
  }

  // ---------------------------------------------------------------------------
  // The closure

  class Closure {
    var hashes: set<StoreHash>

    constructor Empty()
      ensures hashes == {}
    {
      hashes := {};
    }

    /**
      `add_runtime_closure_of`: a hash already present ends the walk;
      otherwise it is added and the walk continues with each successor in
      turn. Afterwards `hash` is present, the set has only grown, every hash
      added has its successors in the set, and every hash added lies in any
      set containing `hash` that is closed outside the old set. `universe`
      bounds the walk.
    */
    method AddRuntimeClosureOf(hash: StoreHash, store: Entries, refNames: string -> seq<string>,
                               resolve: InputDrv -> seq<string>, ghost universe: set<StoreHash>)
      modifies this
      requires hash in universe && ClosedOutside(store, refNames, resolve, universe, {})
      ensures old(hash in hashes) ==> hashes == old(hashes)
      ensures old(hashes) + {hash} <= hashes
      ensures forall k :: k in hashes && k !in old(hashes) ==> ClosedAt(store, refNames, resolve, k, hashes)
      ensures forall r :: ClosedOutside(store, refNames, resolve, r, old(hashes)) && hash in r ==> hashes <= old(hashes) + r
      ensures old(hash !in hashes) && (hash !in store || store[hash].Source?) ==> hashes == old(hashes) + {hash}
      decreases universe - hashes
    {
      if hash in hashes {
        return;
      }
      ghost var base := hashes;
      hashes := hashes + {hash};
      assert ClosedAt(store, refNames, resolve, hash, universe);
      var next := Successors(store, refNames, resolve, hash);
      for i := 0 to |next|
        invariant base + {hash} <= hashes
        invariant Prefix(next, i) <= hashes
        invariant forall k :: k in hashes && k !in base && k != hash ==> ClosedAt(store, refNames, resolve, k, hashes)
        invariant forall r :: ClosedOutside(store, refNames, resolve, r, base) && hash in r ==> hashes <= base + r
      {
        assert next[i] in SuccessorSet(store, refNames, resolve, hash);
        assert next[i] in universe;
        ghost var before := hashes;
        AddRuntimeClosureOf(next[i], store, refNames, resolve, universe);
        StepMinimal(store, refNames, resolve, base, hash, before, hashes, next[i]);
        StepClosed(store, refNames, resolve, base, hash, before, hashes);
        PrefixStep(next, i);
      }
      assert SuccessorSet(store, refNames, resolve, hash) == Prefix(next, |next|);
    }

    // -------------------------------------------------------------------------
    // Coverage

    /**
      `coverage_statistics`: every hash of the closure is processed in some
      order; the first fault aborts. Otherwise `total` is the size of the
      closure, `found` the number of hashes whose deriver chain ends at a
      record, the sizes are the sums of those records' sizes, and `missing`
      is the sorted, de-duplicated list of the names the others report.
    */
    method CoverageStatistics(store: Entries, findName: Drv -> string) returns (r: Coverage)
      ensures r.Aborted? <==> exists h :: h in hashes && Process(store, findName, h, {}).Aborts?
      ensures r.Aborted? ==> exists h :: h in hashes && Process(store, findName, h, {}) == Aborts(r.fault)
      ensures r.Statistics? ==> r.stats.total == |hashes|
      ensures r.Statistics? ==> r.stats.found == |FoundIn(store, findName, hashes)|
      ensures r.Statistics? ==> r.stats.fileSize == SumOver(hashes, FileSizeOf(store, findName))
      ensures r.Statistics? ==> r.stats.narSize == SumOver(hashes, NarSizeOf(store, findName))
      ensures r.Statistics? ==> StrictlySorted(r.stats.missing)
      ensures r.Statistics? ==> forall n :: n in r.stats.missing <==> n in MissingNames(store, findName, hashes)
    {
      ghost var culprit;
      r, culprit := Tally(store, findName, hashes);
      if r.Statistics? {
        var stats := r.stats;
        r := Statistics(stats.(missing := SortDedup(stats.missing)));
        TalliedCoverage(store, findName, hashes, stats, r);
      }
    }
  }

  /**
    The loop of `coverage_statistics` over the closure: each hash is processed
    in turn, and the first fault ends the walk.
  */
  method Tally(store: Entries, findName: Drv -> string, hashes: set<StoreHash>) returns (r: Coverage, ghost culprit: Option<StoreHash>)
    ensures r.Aborted? ==> culprit.Some? && culprit.value in hashes && Process(store, findName, culprit.value, {}) == Aborts(r.fault)
    ensures r.Statistics? ==> r.stats.total == |hashes| && Tallied(store, findName, hashes, r.stats)
  {
    var stats := CoverageStats(|hashes|, 0, 0, 0, []);
    var pending := hashes;
    ghost var done: set<StoreHash> := {};
    while pending != {}
      invariant pending <= hashes && done == hashes - pending
      invariant stats.total == |hashes| && Tallied(store, findName, done, stats)
      decreases pending
    {
      var h :| h in pending;
      var step := ProcessInto(stats, store, findName, h, done);
      if step.Aborted? {
        return step, Some(h);
      }
      MoveOne(hashes, pending, done, h);
      stats := step.stats;
      pending := pending - {h};
      done := done + {h};
    }
    assert done == hashes;
    r, culprit := Statistics(stats), None;
  }

  /** Moving one pending hash to the done ones keeps them splitting `hashes`. */
  lemma MoveOne(hashes: set<StoreHash>, pending: set<StoreHash>, done: set<StoreHash>, h: StoreHash)
    requires pending <= hashes && done == hashes - pending && h in pending
    ensures pending - {h} <= hashes && done + {h} == hashes - (pending - {h})
  {
  }

  /** The statistics of the hashes in `done`, before sorting the missing names. */
  ghost predicate Tallied(store: Entries, findName: Drv -> string, done: set<StoreHash>, stats: CoverageStats) {
    && (forall h :: h in done ==> Process(store, findName, h, {}).Contributes?)
    && stats.found == |FoundIn(store, findName, done)|
    && stats.fileSize == SumOver(done, FileSizeOf(store, findName))
    && stats.narSize == SumOver(done, NarSizeOf(store, findName))
    && (forall n :: n in stats.missing <==> n in MissingNames(store, findName, done))
  }

  /** Once every hash is tallied, sorting the missing names gives the statistics. */
  lemma TalliedCoverage(store: Entries, findName: Drv -> string, hashes: set<StoreHash>, stats: CoverageStats, r: Coverage)
    requires Tallied(store, findName, hashes, stats)
    requires r == Statistics(stats.(missing := SortDedup(stats.missing)))
    ensures !exists h :: h in hashes && Process(store, findName, h, {}).Aborts?
    ensures r.stats.total == stats.total
    ensures r.stats.found == |FoundIn(store, findName, hashes)|
    ensures r.stats.fileSize == SumOver(hashes, FileSizeOf(store, findName))
    ensures r.stats.narSize == SumOver(hashes, NarSizeOf(store, findName))
    ensures StrictlySorted(r.stats.missing)
    ensures forall n :: n in r.stats.missing <==> n in MissingNames(store, findName, hashes)
  {
  }

  /**
    `process` applied to the running statistics: a record found adds one to
    `found` and its sizes to the sums, a missing name is pushed, and a fault
    aborts.
  */
  method ProcessInto(stats: CoverageStats, store: Entries, findName: Drv -> string, hash: StoreHash,
                     ghost done: set<StoreHash>)
    returns (r: Coverage)
    requires hash !in done && Tallied(store, findName, done, stats)
    ensures r.Aborted? <==> Process(store, findName, hash, {}).Aborts?
    ensures r.Aborted? ==> r.fault == Process(store, findName, hash, {}).fault
    ensures r.Statistics? ==> r.stats.total == stats.total && Tallied(store, findName, done + {hash}, r.stats)
  {
    var outcome := Process(store, findName, hash, {});
    if outcome.Aborts? {
      return Aborted(outcome.fault);
    }
    AddOneFound(store, findName, done, hash);
    AddOneSum(done, FileSizeOf(store, findName), hash);
    AddOneSum(done, NarSizeOf(store, findName), hash);
    AddOneMissing(store, findName, done, hash);
    match outcome.c {
      case FoundRecord(fileSize, narSize) =>
        r := Statistics(stats.(found := stats.found + 1, fileSize := stats.fileSize + fileSize,
                               narSize := stats.narSize + narSize));
      case MissingName(name) =>
        r := Statistics(stats.(missing := stats.missing + [name]));
      case NoContribution =>
        r := Statistics(stats);
    }
  }

  // ---------------------------------------------------------------------------
  // What one hash contributes

  datatype Contribution =
    | FoundRecord(fileSize: nat, narSize: nat)
    | MissingName(name: string)
    | NoContribution

  /** The assertion that an output does not derive itself, and a longer deriver cycle. */
  datatype Fault = SelfDerivation(hash: StoreHash) | DeriverCycle(hash: StoreHash)

  datatype Processed = Contributes(c: Contribution) | Aborts(fault: Fault)

  datatype CoverageStats = CoverageStats(total: nat, found: nat, fileSize: nat, narSize: nat, missing: seq<string>)

  datatype Coverage = Statistics(stats: CoverageStats) | Aborted(fault: Fault)

  /**
    `process` for one hash: a record is found with its sizes, a derivation
    is missing under its name, a source contributes nothing, an output is
    processed as its deriver (an output deriving itself is a fault), and an
    unknown hash is missing under the hash itself. `seen` holds the outputs
    already passed on this chain; coming back to one is a cycle, on which
    the recursion of `process` would not end.
  */
  function Process(store: Entries, findName: Drv -> string, h: StoreHash, seen: set<StoreHash>): (p: Processed)
    requires h !in seen
    ensures p.Contributes? && p.c.FoundRecord? ==>
      exists k :: k in store && store[k].NarInfoItem?
        && p.c == FoundRecord(store[k].info.fileSize, store[k].info.narSize)
    ensures p.Aborts? && p.fault.SelfDerivation? ==>
      p.fault.hash in store && store[p.fault.hash].Output? && store[p.fault.hash].deriver == p.fault.hash
    ensures h !in store ==> p == Contributes(MissingName(h))
    ensures h in store && store[h].NarInfoItem? ==>
      p == Contributes(FoundRecord(store[h].info.fileSize, store[h].info.narSize))
    ensures h in store && store[h].DrvItem? ==> p == Contributes(MissingName(findName(store[h].drv)))
    ensures h in store && store[h].Source? ==> p == Contributes(NoContribution)
    ensures h in store && store[h].Output? && store[h].deriver == h ==> p == Aborts(SelfDerivation(h))
    decreases store.Keys - seen
  {
    if h !in store then Contributes(MissingName(h))
    else
      match store[h]
      case NarInfoItem(info) => Contributes(FoundRecord(info.fileSize, info.narSize))
      case DrvItem(drv) => Contributes(MissingName(findName(drv)))
      case Source(_) => Contributes(NoContribution)
      case Output(_, deriver) =>
        if deriver == h then Aborts(SelfDerivation(h))
        else if deriver in seen then Aborts(DeriverCycle(deriver))
        else Process(store, findName, deriver, seen + {h})
  }

  /** An output whose deriver is not on the chain so far is processed as that deriver. */
  lemma OutputProcessedAsDeriver(store: Entries, findName: Drv -> string, h: StoreHash, seen: set<StoreHash>)
    requires h !in seen && h in store && store[h].Output?
    requires store[h].deriver != h && store[h].deriver !in seen
    ensures Process(store, findName, h, seen) == Process(store, findName, store[h].deriver, seen + {h})
  {
  }

  /** `k` is reached from `h` by following the deriver of an output `n` times. */
  ghost predicate OnChain(store: Entries, h: StoreHash, k: StoreHash, n: nat)
    decreases n
  {
    if n == 0 then k == h
    else h in store && store[h].Output? && OnChain(store, store[h].deriver, k, n - 1)
  }

  /**
    A hash that contributes contributes what the item at the end of its
    deriver chain does: the first hash on the chain that is not an output.
  */
  lemma {:induction false} ContributesChainEnd(store: Entries, findName: Drv -> string, h: StoreHash, seen: set<StoreHash>)
    requires h !in seen
    ensures Process(store, findName, h, seen).Contributes? ==>
      exists n: nat, k :: OnChain(store, h, k, n) && (k !in store || !store[k].Output?)
        && Process(store, findName, h, seen) == Process(store, findName, k, {})
    decreases store.Keys - seen
  {
    if h in store && store[h].Output? && Process(store, findName, h, seen).Contributes? {
      var d := store[h].deriver;
      assert d != h && d !in seen;
      ContributesChainEnd(store, findName, d, seen + {h});
      var n: nat, k :| OnChain(store, d, k, n) && (k !in store || !store[k].Output?)
        && Process(store, findName, d, seen + {h}) == Process(store, findName, k, {});
      assert OnChain(store, h, k, n + 1);
    } else if Process(store, findName, h, seen).Contributes? {
      assert OnChain(store, h, h, 0);
    }
  }

  ghost function FoundIn(store: Entries, findName: Drv -> string, s: set<StoreHash>): set<StoreHash> {
    set h | h in s && Process(store, findName, h, {}).Contributes? && Process(store, findName, h, {}).c.FoundRecord?
  }

  ghost function MissingNames(store: Entries, findName: Drv -> string, s: set<StoreHash>): set<string> {
    set h | h in s && Process(store, findName, h, {}).Contributes? && Process(store, findName, h, {}).c.MissingName? ::
      Process(store, findName, h, {}).c.name
  }

  function FileSizeOf(store: Entries, findName: Drv -> string): StoreHash -> nat {
    h => var p := Process(store, findName, h, {}); if p.Contributes? && p.c.FoundRecord? then p.c.fileSize else 0
  }

  function NarSizeOf(store: Entries, findName: Drv -> string): StoreHash -> nat {
    h => var p := Process(store, findName, h, {}); if p.Contributes? && p.c.FoundRecord? then p.c.narSize else 0
  }

  /** The sum of `f` over a finite set. */
  ghost function SumOver(s: set<StoreHash>, f: StoreHash -> nat): nat {
    if s == {} then 0 else var x :| x in s; f(x) + SumOver(s - {x}, f)
  }

  /** The sum does not depend on the order the elements are taken in. */
  lemma {:induction false} SumOverRemove(s: set<StoreHash>, f: StoreHash -> nat, y: StoreHash)
    requires y in s
    ensures SumOver(s, f) == f(y) + SumOver(s - {y}, f)
    decreases |s|
  {
    var x :| x in s && SumOver(s, f) == f(x) + SumOver(s - {x}, f);
    if x != y {
      SumOverRemove(s - {x}, f, y);
      SumOverRemove(s - {y}, f, x);
      assert s - {x} - {y} == s - {y} - {x};
    }
  }

  /** Taking one more hash into the statistics: the count of records found. */
  lemma AddOneFound(store: Entries, findName: Drv -> string, done: set<StoreHash>, h: StoreHash)
    requires h !in done && Process(store, findName, h, {}).Contributes?
    ensures |FoundIn(store, findName, done + {h})|
         == |FoundIn(store, findName, done)| + (if Process(store, findName, h, {}).c.FoundRecord? then 1 else 0)
  {
    if Process(store, findName, h, {}).c.FoundRecord? {
      assert FoundIn(store, findName, done + {h}) == FoundIn(store, findName, done) + {h};
    } else {
      assert FoundIn(store, findName, done + {h}) == FoundIn(store, findName, done);
    }
  }

  /** Taking one more hash into a sum. */
  lemma AddOneSum(done: set<StoreHash>, f: StoreHash -> nat, h: StoreHash)
    requires h !in done
    ensures SumOver(done + {h}, f) == SumOver(done, f) + f(h)
  {
    SumOverRemove(done + {h}, f, h);
    assert done + {h} - {h} == done;
  }

  /** Taking one more hash into the missing names. */
  lemma AddOneMissing(store: Entries, findName: Drv -> string, done: set<StoreHash>, h: StoreHash)
    requires h !in done && Process(store, findName, h, {}).Contributes?
    ensures var c := Process(store, findName, h, {}).c;
      MissingNames(store, findName, done + {h}) == MissingNames(store, findName, done) + (if c.MissingName? then {c.name} else {})
  {
  }
}
