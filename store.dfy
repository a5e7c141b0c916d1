/**
  The store graph cache: a map from store hash to what is known about that
  item. Discovery walks the build-time closure of a derivation, registering
  the derivation, its sources and its outputs; fetching upgrades outputs to
  the cache records found for them.
*/
module Store {
  import opened Wrappers
  import opened Derivation
  import opened Narinfo
  import opened StorePaths
  import opened Fetch

  datatype StoreItem =
    | DrvItem(drv: Drv)
    | NarInfoItem(info: NarInfo)
    | Source(name: string)
    | Output(name: string, deriver: StoreHash)

  type Entries = map<StoreHash, StoreItem>

  // ---------------------------------------------------------------------------
  // The entries a derivation contributes

  /** The `expect`s of `split_path` and `from_path`: every path is long enough. */
  predicate WellFormed(d: Drv) {
    && (forall i :: 0 <= i < |d.inputSrcs| ==> |FileName(d.inputSrcs[i])| > HashLength)
    && (forall i :: 0 <= i < |d.outputs| ==> |FileName(d.outputs[i].path)| > HashLength)
    && (forall i :: 0 <= i < |d.inputDrvs| ==> |FileName(d.inputDrvs[i].path)| >= HashLength)
  }

  /** One `Source` entry per input source. */
  function SourceItems(d: Drv): (r: seq<(StoreHash, StoreItem)>)
    requires WellFormed(d)
    ensures |r| == |d.inputSrcs|
    ensures forall i :: 0 <= i < |r| ==>
      r[i] == (SplitPath(d.inputSrcs[i]).0, Source(SplitPath(d.inputSrcs[i]).1))
  {
    seq(|d.inputSrcs|, i requires 0 <= i < |d.inputSrcs| =>
      var hn := SplitPath(d.inputSrcs[i]); (hn.0, Source(hn.1)))
  }

  /** One `Output` entry per output, naming `deriver` as the derivation that builds it. */
  function OutputItems(d: Drv, deriver: StoreHash): (r: seq<(StoreHash, StoreItem)>)
    requires WellFormed(d)
    ensures |r| == |d.outputs|
    ensures forall i :: 0 <= i < |r| ==>
      r[i] == (SplitPath(d.outputs[i].path).0, Output(SplitPath(d.outputs[i].path).1, deriver))
  {
    seq(|d.outputs|, i requires 0 <= i < |d.outputs| =>
      var hn := SplitPath(d.outputs[i].path); (hn.0, Output(hn.1, deriver)))
  }

  function KeysOf(kvs: seq<(StoreHash, StoreItem)>): set<StoreHash> {
    set i | 0 <= i < |kvs| :: kvs[i].0
  }

  function SourceHashes(d: Drv): set<StoreHash>
    requires WellFormed(d)
  {
    set i | 0 <= i < |d.inputSrcs| :: SplitPath(d.inputSrcs[i]).0
  }

  function OutputHashes(d: Drv): set<StoreHash>
    requires WellFormed(d)
  {
    set i | 0 <= i < |d.outputs| :: SplitPath(d.outputs[i].path).0
  }

  function InputDrvHashes(d: Drv): set<StoreHash>
    requires WellFormed(d)
  {
    InputDrvPrefix(d, |d.inputDrvs|)
  }

  /** The hashes of the first `n` input derivations. */
  function InputDrvPrefix(d: Drv, n: nat): set<StoreHash>
    requires WellFormed(d) && n <= |d.inputDrvs|
  {
    set i | 0 <= i < n :: FromPath(d.inputDrvs[i].path)
  }

  /** Every hash of `d`'s build closure one step away: sources, outputs and input derivations. */
  function Mentions(d: Drv): set<StoreHash>
    requires WellFormed(d)
  {
    SourceHashes(d) + OutputHashes(d) + InputDrvHashes(d)
  }

  /** The invariant of the cache: every hash a cached derivation names is a key. */
  ghost predicate ClosureInvariant(m: Entries) {
    forall k :: k in m && m[k].DrvItem? ==> WellFormed(m[k].drv) && Mentions(m[k].drv) <= m.Keys
  }

  /** Every cached derivation is well formed and names only hashes of `universe`. */
  ghost predicate DrvsWithin(m: Entries, universe: set<StoreHash>) {
    forall k :: k in m && m[k].DrvItem? ==> WellFormed(m[k].drv) && Mentions(m[k].drv) <= universe
  }

  /**
    The derivation reader produces well-formed derivations naming hashes of
    `universe` at every path discovery can read: one whose file name starts
    with a hash of `universe`. Other paths are not constrained.
  */
  ghost predicate ReaderWithin(read: string -> Drv, universe: set<StoreHash>) {
    forall p {:trigger read(p)} :: |FileName(p)| >= HashLength && FromPath(p) in universe ==>
      WellFormed(read(p)) && Mentions(read(p)) <= universe
  }

  /** Every derivation entry of `m` at a key `m0` lacks has all the hashes it names as keys. */
  ghost predicate NewDrvsClosed(m0: Entries, m: Entries) {
    forall k :: k in m && m[k].DrvItem? && k !in m0 ==> WellFormed(m[k].drv) && Mentions(m[k].drv) <= m.Keys
  }

  /** A derivation entry of `m` at a key of `m0` is the one `m0` had there. */
  ghost predicate KeepsDrvs(m0: Entries, m: Entries) {
    forall k :: k in m0 && k in m && m[k].DrvItem? ==> m0[k] == m[k]
  }

  /** The three facts discovery maintains are enough for the closure invariant to carry over. */
  lemma ClosureInvariantCarries(m0: Entries, m: Entries)
    requires ClosureInvariant(m0) && m0.Keys <= m.Keys
    requires NewDrvsClosed(m0, m) && KeepsDrvs(m0, m)
    ensures ClosureInvariant(m)
  {
    forall k | k in m && m[k].DrvItem?
      ensures WellFormed(m[k].drv) && Mentions(m[k].drv) <= m.Keys
    {
      if k in m0 {
        assert m0[k] == m[k];
      }
    }
  }

  // ---------------------------------------------------------------------------
  // Registering one derivation (the first part of discovery)

  /** The entries written in order: a later write to a key replaces an earlier one. */
  function Puts(m: Entries, kvs: seq<(StoreHash, StoreItem)>): Entries {
    if kvs == [] then m
    else
      var last := kvs[|kvs| - 1];
      Puts(m, kvs[..|kvs| - 1])[last.0 := last.1]
  }

  /** Writing one more item of `kvs` extends the writes of the shorter prefix. */
  lemma PutsPrefixStep(m: Entries, kvs: seq<(StoreHash, StoreItem)>, i: nat)
    requires i < |kvs|
    ensures Puts(m, kvs[..i + 1]) == Puts(m, kvs[..i])[kvs[i].0 := kvs[i].1]
  {
    assert kvs[..i + 1][..i] == kvs[..i];
  }

  /** A key written is a key afterwards and holds its last write; other keys are untouched. */
  lemma {:induction false} PutsAt(m: Entries, kvs: seq<(StoreHash, StoreItem)>, k: StoreHash)
    ensures k in Puts(m, kvs) <==> k in m || k in KeysOf(kvs)
    ensures k !in KeysOf(kvs) && k in m ==> Puts(m, kvs)[k] == m[k]
    ensures k in KeysOf(kvs) ==>
      exists i :: 0 <= i < |kvs| && kvs[i] == (k, Puts(m, kvs)[k]) && (forall j :: i < j < |kvs| ==> kvs[j].0 != k)
  {
    if kvs != [] {
      var init := kvs[..|kvs| - 1];
      PutsAt(m, init, k);
      assert forall i :: 0 <= i < |init| ==> init[i] == kvs[i];
      if k != kvs[|kvs| - 1].0 {
        assert k in KeysOf(kvs) ==> k in KeysOf(init) by {
          if k in KeysOf(kvs) {
            var i :| 0 <= i < |kvs| && kvs[i].0 == k;
            assert init[i].0 == k;
          }
        }
        assert k in KeysOf(init) ==> k in KeysOf(kvs) by {
          if k in KeysOf(init) {
            var i :| 0 <= i < |init| && init[i].0 == k;
            assert kvs[i].0 == k;
          }
        }
      } else {
        assert kvs[|kvs| - 1].0 == k;
      }
    }
  }

  /** The cache after registering `d` at `hash`: the derivation, then each source, then each output. */
  function Registered(m: Entries, hash: StoreHash, d: Drv): Entries
    requires WellFormed(d)
  {
    Puts(Puts(m[hash := DrvItem(d)], SourceItems(d)), OutputItems(d, hash))
  }

  lemma ItemKeys(d: Drv, deriver: StoreHash)
    requires WellFormed(d)
    ensures KeysOf(SourceItems(d)) == SourceHashes(d)
    ensures KeysOf(OutputItems(d, deriver)) == OutputHashes(d)
  {
    var srcs := SourceItems(d);
    var outs := OutputItems(d, deriver);
    assert forall i :: 0 <= i < |srcs| ==> srcs[i].0 == SplitPath(d.inputSrcs[i]).0;
    assert forall i :: 0 <= i < |outs| ==> outs[i].0 == SplitPath(d.outputs[i].path).0;
  }

  /**
    What registering `d` at `hash` leaves at each key: an output of `d` there
    is its `Output` entry naming `hash`, else a source of `d` is its `Source`
    entry, else the derivation itself, else what was there before; the keys
    are the old ones, `hash`, and the hashes of the sources and outputs.
  */
  lemma RegisteredAt(m: Entries, hash: StoreHash, d: Drv, k: StoreHash)
    requires WellFormed(d)
    ensures var r := Registered(m, hash, d);
      && (k in r <==> k in m || k == hash || k in SourceHashes(d) || k in OutputHashes(d))
      && (k in OutputHashes(d) ==> (k, r[k]) in OutputItems(d, hash))
      && (k !in OutputHashes(d) && k in SourceHashes(d) ==> (k, r[k]) in SourceItems(d))
      && (k !in OutputHashes(d) && k !in SourceHashes(d) && k == hash ==> r[k] == DrvItem(d))
      && (k !in OutputHashes(d) && k !in SourceHashes(d) && k != hash && k in m ==> r[k] == m[k])
  {
    var base := m[hash := DrvItem(d)];
    var withSources := Puts(base, SourceItems(d));
    ItemKeys(d, hash);
    PutsAt(base, SourceItems(d), k);
    PutsAt(withSources, OutputItems(d, hash), k);
  }

  /** The facts discovery keeps while it walks the input derivations of `drv`, registered at `hash`. */
  ghost predicate Grown(m0: Entries, hash: StoreHash, drv: Drv, m: Entries)
    requires WellFormed(drv)
  {
    && m0.Keys + {hash} + SourceHashes(drv) + OutputHashes(drv) <= m.Keys
    && (forall k :: k in m && m[k].DrvItem? && k !in m0 && k != hash ==>
          WellFormed(m[k].drv) && Mentions(m[k].drv) <= m.Keys)
    && KeepsDrvs(m0, m)
    && (m[hash].DrvItem? ==> m[hash] == DrvItem(drv))
  }

  lemma RegisteredGrown(m0: Entries, hash: StoreHash, drv: Drv, universe: set<StoreHash>)
    requires WellFormed(drv) && hash !in m0
    requires Mentions(drv) <= universe && DrvsWithin(m0, universe)
    ensures Grown(m0, hash, drv, Registered(m0, hash, drv))
    ensures DrvsWithin(Registered(m0, hash, drv), universe)
  {
    var r := Registered(m0, hash, drv);
    forall k | k in m0 || k == hash || k in SourceHashes(drv) || k in OutputHashes(drv)
      ensures k in r
    {
      RegisteredAt(m0, hash, drv, k);
    }
    forall k | k in r && r[k].DrvItem?
      ensures (k == hash && r[k] == DrvItem(drv)) || (k != hash && k in m0 && r[k] == m0[k])
    {
      RegisteredAt(m0, hash, drv, k);
    }
  }

  lemma StepGrown(m0: Entries, hash: StoreHash, drv: Drv, before: Entries, after: Entries)
    requires WellFormed(drv) && Grown(m0, hash, drv, before)
    requires before.Keys <= after.Keys && NewDrvsClosed(before, after) && KeepsDrvs(before, after)
    ensures Grown(m0, hash, drv, after)
  {
    forall k | k in after && after[k].DrvItem? && k !in m0 && k != hash
      ensures WellFormed(after[k].drv) && Mentions(after[k].drv) <= after.Keys
    {
      if k in before {
        assert before[k] == after[k];
      }
    }
  }

  lemma FinishGrown(m0: Entries, hash: StoreHash, drv: Drv, m: Entries)
    requires WellFormed(drv) && Grown(m0, hash, drv, m) && InputDrvHashes(drv) <= m.Keys
    ensures m0.Keys + {hash} <= m.Keys && Mentions(drv) <= m.Keys
    ensures NewDrvsClosed(m0, m) && KeepsDrvs(m0, m)
  {
  }

  /** Only `Output` items are ever looked up in the caches. */
  function Candidates(m: Entries): (c: set<StoreHash>)
    ensures forall k :: k in c <==> k in m && m[k].Output?
  {
    set k | k in m && m[k].Output?
  }

  // ---------------------------------------------------------------------------
  // Merging fetched records

  /** One fetched record: a vacant key or an `Output` gets it; anything else stays (the duplicate warning). */
  function MergeOne(m: Entries, h: StoreHash, info: NarInfo): (r: Entries)
    ensures r.Keys == m.Keys + {h}
    ensures forall k :: k in m && k != h ==> r[k] == m[k]
    ensures h !in m || m[h].Output? ==> r[h] == NarInfoItem(info)
    ensures h in m && !m[h].Output? ==> r[h] == m[h]
  {
    if h !in m || m[h].Output? then m[h := NarInfoItem(info)] else m
  }

  /** The results merged in order. */
  function MergeAll(m: Entries, results: seq<(StoreHash, NarInfo)>): (r: Entries)
    ensures m.Keys <= r.Keys
    ensures forall i :: 0 <= i < |results| ==> results[i].0 in r
  {
    if results == [] then m
    else
      var init := results[..|results| - 1];
      var last := results[|results| - 1];
      assert forall i :: 0 <= i < |init| ==> init[i] == results[i];
      MergeOne(MergeAll(m, init), last.0, last.1)
  }

  ghost predicate HasResult(results: seq<(StoreHash, NarInfo)>, k: StoreHash) {
    exists i :: 0 <= i < |results| && results[i].0 == k
  }

  /** Merging adds exactly the fetched hashes as keys, and leaves every other key alone. */
  lemma {:induction false} MergeAllUntouched(m: Entries, results: seq<(StoreHash, NarInfo)>, k: StoreHash)
    ensures k in MergeAll(m, results) <==> k in m || HasResult(results, k)
    ensures !HasResult(results, k) && k in m ==> MergeAll(m, results)[k] == m[k]
  {
    if results != [] {
      var init := results[..|results| - 1];
      MergeAllUntouched(m, init, k);
      if HasResult(results, k) && !HasResult(init, k) {
        assert results[|results| - 1].0 == k;
      }
      if HasResult(init, k) {
        var i :| 0 <= i < |init| && init[i].0 == k;
        assert results[i].0 == k;
      }
    }
  }

  /** A `Drv`, `Source` or `NarInfo` entry is never overwritten by a fetched record. */
  lemma {:induction false} MergeAllKeepsOthers(m: Entries, results: seq<(StoreHash, NarInfo)>, k: StoreHash)
    requires k in m && !m[k].Output?
    ensures MergeAll(m, results)[k] == m[k]
  {
    if results != [] {
      MergeAllKeepsOthers(m, results[..|results| - 1], k);
      MergeAllUntouched(m, results[..|results| - 1], k);
    }
  }

  /** A vacant or `Output` key gets the record of its first fetched result; later duplicates are ignored. */
  lemma {:induction false} MergeAllFirstWins(m: Entries, results: seq<(StoreHash, NarInfo)>, i: nat)
    requires i < |results|
    requires forall j :: 0 <= j < i ==> results[j].0 != results[i].0
    requires results[i].0 !in m || m[results[i].0].Output?
    ensures MergeAll(m, results)[results[i].0] == NarInfoItem(results[i].1)
  {
    var k := results[i].0;
    var init := results[..|results| - 1];
    if i == |results| - 1 {
      assert forall j :: 0 <= j < |init| ==> init[j] == results[j];
      assert !HasResult(init, k);
      MergeAllUntouched(m, init, k);
    } else {
      assert forall j :: 0 <= j < |init| ==> init[j] == results[j];
      MergeAllFirstWins(m, init, i);
    }
  }

  /**
    The cache after discovering `drv` at `hash` over `m`: unchanged when `hash`
    is a key, otherwise `drv` registered and then each input derivation
    discovered in turn, with the derivation cached at its hash if there is
    one and the one read from its path otherwise.
  */
  ghost function Walk(m: Entries, hash: StoreHash, drv: Drv, read: string -> Drv, universe: set<StoreHash>): (r: Entries)
    requires hash in universe && WellFormed(drv) && Mentions(drv) <= universe
    requires ReaderWithin(read, universe) && DrvsWithin(m, universe)
    ensures m.Keys + {hash} <= r.Keys && DrvsWithin(r, universe)
    decreases universe - m.Keys, 0
  {
    if hash in m then m
    else
      RegisteredGrown(m, hash, drv, universe);
      WalkInputs(Registered(m, hash, drv), drv, 0, read, universe)
  }

  /** The input derivations of `drv` from the `i`-th on, discovered in turn over `m`. */
  ghost function WalkInputs(m: Entries, drv: Drv, i: nat, read: string -> Drv, universe: set<StoreHash>): (r: Entries)
    requires i <= |drv.inputDrvs| && WellFormed(drv) && Mentions(drv) <= universe
    requires ReaderWithin(read, universe) && DrvsWithin(m, universe)
    ensures m.Keys <= r.Keys && DrvsWithin(r, universe)
    decreases universe - m.Keys, |drv.inputDrvs| - i
  {
    if i == |drv.inputDrvs| then m
    else
      var path := drv.inputDrvs[i].path;
      var h := FromPath(path);
      assert h in InputDrvHashes(drv);
      var input := if h in m && m[h].DrvItem? then m[h].drv else read(path);
      WalkInputs(Walk(m, h, input, read, universe), drv, i + 1, read, universe)
  }

  /** One step of the walk over the inputs: the `i`-th input derivation is discovered first. */
  lemma WalkInputsStep(m: Entries, drv: Drv, i: nat, read: string -> Drv, universe: set<StoreHash>, h: StoreHash, input: Drv)
    requires i < |drv.inputDrvs| && WellFormed(drv) && Mentions(drv) <= universe
    requires ReaderWithin(read, universe) && DrvsWithin(m, universe)
    requires h == FromPath(drv.inputDrvs[i].path) && h in universe
    requires input == if h in m && m[h].DrvItem? then m[h].drv else read(drv.inputDrvs[i].path)
    ensures WellFormed(input) && Mentions(input) <= universe
    ensures WalkInputs(m, drv, i, read, universe) == WalkInputs(Walk(m, h, input, read, universe), drv, i + 1, read, universe)
  {
  }

  // ---------------------------------------------------------------------------
  // The cache

  class StoreCache {
    var entries: Entries

    constructor ()
      ensures entries == map[]
    {
      entries := map[];
    }

    /** The first part of discovery: the derivation, then its sources, then its outputs. */
    method RegisterDrv(hash: StoreHash, drv: Drv)
      modifies this
      requires WellFormed(drv)
      ensures entries == Registered(old(entries), hash, drv)
    {
      ghost var srcs := SourceItems(drv);
      ghost var outs := OutputItems(drv, hash);
      entries := entries[hash := DrvItem(drv)];
      ghost var withDrv := entries;
      for i := 0 to |drv.inputSrcs|
        invariant entries == Puts(withDrv, srcs[..i])
      {
        var hn := SplitPath(drv.inputSrcs[i]);
        PutsPrefixStep(withDrv, srcs, i);
        entries := entries[hn.0 := Source(hn.1)];
      }
      assert srcs[..|srcs|] == srcs;
      ghost var withSources := entries;
      for i := 0 to |drv.outputs|
        invariant entries == Puts(withSources, outs[..i])
      {
        var hn := SplitPath(drv.outputs[i].path);
        PutsPrefixStep(withSources, outs, i);
        entries := entries[hn.0 := Output(hn.1, hash)];
      }
      assert outs[..|outs|] == outs;
    }

    /**
      `discover_build_time_closure`: nothing happens when `hash` is a key;
      otherwise `drv` is registered, and every input derivation is discovered
      in turn, taken from the cache when a derivation is cached there and read
      otherwise. `universe` bounds the hashes the derivations can name, which
      makes the walk finite.
    */
    method Discover(hash: StoreHash, drv: Drv, read: string -> Drv, ghost universe: set<StoreHash>)
      modifies this
      requires hash in universe && WellFormed(drv) && Mentions(drv) <= universe
      requires ReaderWithin(read, universe) && DrvsWithin(entries, universe)
      ensures old(hash in entries) ==> entries == old(entries)
      ensures old(entries).Keys + {hash} <= entries.Keys
      ensures old(hash !in entries) ==> Mentions(drv) <= entries.Keys
      ensures DrvsWithin(entries, universe)
      ensures NewDrvsClosed(old(entries), entries) && KeepsDrvs(old(entries), entries)
      ensures old(ClosureInvariant(entries)) ==> ClosureInvariant(entries)
      ensures entries == Walk(old(entries), hash, drv, read, universe)
      ensures old(hash !in entries) && entries[hash].DrvItem? ==> entries[hash] == DrvItem(drv)
      decreases universe - entries.Keys, 0
    {
      if hash in entries {
        return;
      }
      ghost var m0 := entries;
      RegisteredGrown(m0, hash, drv, universe);
      RegisterDrv(hash, drv);
      DiscoverInputs(hash, drv, read, universe, m0);
      FinishGrown(m0, hash, drv, entries);
      if old(ClosureInvariant(entries)) {
        ClosureInvariantCarries(m0, entries);
      }
    }

    /**
      The second part of discovery, for `drv` registered at `hash` over the
      cache `m0`: each input derivation in turn.
    */
    method DiscoverInputs(hash: StoreHash, drv: Drv, read: string -> Drv, ghost universe: set<StoreHash>, ghost m0: Entries)
      modifies this
      requires hash in universe && hash !in m0 && WellFormed(drv) && Mentions(drv) <= universe
      requires ReaderWithin(read, universe) && DrvsWithin(entries, universe)
      requires Grown(m0, hash, drv, entries)
      ensures Grown(m0, hash, drv, entries) && DrvsWithin(entries, universe)
      ensures InputDrvHashes(drv) <= entries.Keys
      ensures entries == WalkInputs(old(entries), drv, 0, read, universe)
      decreases universe - entries.Keys, 2
    {
      ghost var start := entries.Keys;
      for i := 0 to |drv.inputDrvs|
        invariant Grown(m0, hash, drv, entries) && DrvsWithin(entries, universe)
        invariant InputDrvPrefix(drv, i) <= entries.Keys && start <= entries.Keys
        invariant WalkInputs(entries, drv, i, read, universe) == WalkInputs(old(entries), drv, 0, read, universe)
      {
        DiscoverInput(hash, drv, i, read, universe, m0);
      }
    }

    /** One input derivation: the cached derivation at its hash if there is one, else the one read from its path. */
    method DiscoverInput(hash: StoreHash, drv: Drv, i: nat, read: string -> Drv, ghost universe: set<StoreHash>, ghost m0: Entries)
      modifies this
      requires hash in universe && hash !in m0 && WellFormed(drv) && Mentions(drv) <= universe
      requires i < |drv.inputDrvs|
      requires ReaderWithin(read, universe) && DrvsWithin(entries, universe)
      requires Grown(m0, hash, drv, entries) && InputDrvPrefix(drv, i) <= entries.Keys
      ensures Grown(m0, hash, drv, entries) && DrvsWithin(entries, universe)
      ensures InputDrvPrefix(drv, i + 1) <= entries.Keys && old(entries).Keys <= entries.Keys
      ensures WalkInputs(entries, drv, i + 1, read, universe) == WalkInputs(old(entries), drv, i, read, universe)
      decreases universe - entries.Keys, 1
    {
      var path := drv.inputDrvs[i].path;
      var h := FromPath(path);
      assert h in InputDrvHashes(drv);
      var input := if h in entries && entries[h].DrvItem? then entries[h].drv else read(path);
      ghost var before := entries;
      WalkInputsStep(before, drv, i, read, universe, h, input);
      Discover(h, input, read, universe);
      StepGrown(m0, hash, drv, before, entries);
      assert InputDrvPrefix(drv, i + 1) == InputDrvPrefix(drv, i) + {h};
    }

    /**
      The merge loop of `fetch_narinfo`: each result counts as fetched, and is
      stored unless the key already holds something other than an `Output`.
    */
    method MergeNarInfos(results: seq<(StoreHash, NarInfo)>) returns (fetched: nat)
      modifies this
      ensures entries == MergeAll(old(entries), results)
      ensures fetched == |results|
    {
      fetched := 0;
      for i := 0 to |results|
        invariant entries == MergeAll(old(entries), results[..i])
        invariant fetched == i
      {
        var (hash, info) := results[i];
        assert results[..i + 1][..i] == results[..i];
        fetched := fetched + 1;
        if hash !in entries {
          entries := entries[hash := NarInfoItem(info)];
        } else if entries[hash].Output? {
          entries := entries[hash := NarInfoItem(info)];
        } else {
          // a duplicate: the source only logs a warning
        }
      }
      assert results[..|results|] == results;
    }

    /**
      `fetch_narinfo`: every `Output` key is looked up with
      `fetch_first_narinfo` (in some order; `fetchFor(h)` is the lookup oracle
      for hash `h`), and the records found are merged. Returns how many
      records were found, and the records themselves.
    */
    method FetchNarInfo(roots: seq<string>, retries: nat, fetchFor: StoreHash -> (nat, nat) -> Lookup)
      returns (fetched: nat, results: seq<(StoreHash, NarInfo)>)
      modifies this
      ensures entries == MergeAll(old(entries), results)
      ensures fetched == |results|
      ensures forall i, j :: 0 <= i < j < |results| ==> results[i].0 != results[j].0
      ensures forall i :: 0 <= i < |results| ==>
        results[i].0 in Candidates(old(entries))
        && FromRoot(fetchFor(results[i].0), |roots|, 0, retries).0 == Some(results[i].1)
      ensures forall h :: h in Candidates(old(entries)) && FromRoot(fetchFor(h), |roots|, 0, retries).0.Some? ==>
        exists i :: 0 <= i < |results| && results[i].0 == h
    {
      var candidates := Candidates(entries);
      var pending := candidates;
      results := [];
      while pending != {}
        invariant entries == old(entries)
        invariant pending <= candidates
        invariant forall i, j :: 0 <= i < j < |results| ==> results[i].0 != results[j].0
        invariant forall i :: 0 <= i < |results| ==>
          results[i].0 in candidates - pending
          && FromRoot(fetchFor(results[i].0), |roots|, 0, retries).0 == Some(results[i].1)
        invariant forall h :: h in candidates - pending && FromRoot(fetchFor(h), |roots|, 0, retries).0.Some? ==>
          exists i :: 0 <= i < |results| && results[i].0 == h
        decreases pending
      {
        var h :| h in pending;
        pending := pending - {h};
        var found, _ := FetchFirstNarInfo(roots, retries, fetchFor(h));
        ghost var previous := results;
        if found.Some? {
          results := results + [(h, found.value)];
          assert results[|results| - 1].0 == h;
        }
        assert forall i :: 0 <= i < |previous| ==> results[i] == previous[i];
      }
      fetched := MergeNarInfos(results);
    }
  }

  /**
    The records `fetch_narinfo` merges are for distinct `Output` keys, so
    each of them replaces its `Output`, in whatever order they arrive.
  */
  lemma FetchedUpgrade(m: Entries, results: seq<(StoreHash, NarInfo)>, i: nat)
    requires i < |results|
    requires forall a, b :: 0 <= a < b < |results| ==> results[a].0 != results[b].0
    requires forall a :: 0 <= a < |results| ==> results[a].0 in Candidates(m)
    ensures MergeAll(m, results)[results[i].0] == NarInfoItem(results[i].1)
  {
    MergeAllFirstWins(m, results, i);
  }
}
