/**
  The derivation walk of the command-line tool: reading one `.drv` file, and
  gathering the closure of a derivation over its input derivations into a map
  from path to derivation, reading each file at most once. The file system is
  an oracle `files` giving a file's contents, or `None` when it cannot be read.
  A read that fails aborts the walk (the tool panics), and the walk then
  reports the path it could not load.
*/
module Gather {
  import opened Wrappers
  import opened Derivation
  import opened DerivationProofs

  /** `read_drv`: the file's contents parse as one derivation with nothing left over. */
  function ReadDrv(files: string -> Option<seq<char>>, path: string): (r: Option<Drv>)
    ensures r.Some? <==> files(path).Some? && ParseDrv(files(path).value).Some? && ParseDrv(files(path).value).value.1 == []
    ensures r.Some? ==> ParseDrv(files(path).value) == Some((r.value, []))
  {
    match files(path)
    case None => None
    case Some(content) =>
      match ParseDrv(content)
      case Some((drv, rest)) => if rest == [] then Some(drv) else None
      case None => None
  }

  /** The paths of the first `n` input derivations of `d`. */
  ghost function InputPaths(d: Drv, n: nat): set<string>
    requires n <= |d.inputDrvs|
  {
    set j | 0 <= j < n :: d.inputDrvs[j].path
  }

  ghost function Inputs(d: Drv): set<string> {
    InputPaths(d, |d.inputDrvs|)
  }

  lemma InputPathsStep(d: Drv, n: nat)
    requires n < |d.inputDrvs|
    ensures InputPaths(d, n + 1) == InputPaths(d, n) + {d.inputDrvs[n].path}
  {
  }

  /** Every derivation in the map, and every input it names, lies in `universe`. */
  ghost predicate MapWithin(out: map<string, Drv>, universe: set<string>) {
    forall k :: k in out ==> k in universe && Inputs(out[k]) <= universe
  }

  /** Every derivation that can be loaded from `universe` names inputs in `universe`. */
  ghost predicate ReaderWithin(load: string -> Option<Drv>, universe: set<string>) {
    forall p :: p in universe && load(p).Some? ==> Inputs(load(p).value) <= universe
  }

  /** Every derivation that can be read from a file of `universe` names inputs in `universe`. */
  ghost predicate FilesWithin(files: string -> Option<seq<char>>, universe: set<string>) {
    forall p :: p in universe && ReadDrv(files, p).Some? ==> Inputs(ReadDrv(files, p).value) <= universe
  }

  /** The derivations that `out` has and `out0` lacks have all their inputs in `out`. */
  ghost predicate NewClosed(out0: map<string, Drv>, out: map<string, Drv>) {
    forall k :: k in out && k !in out0 ==> Inputs(out[k]) <= out.Keys
  }

  /** The derivations that `out` has and `out0` lacks, other than `name`'s, are what `load` gives. */
  ghost predicate NewLoaded(out0: map<string, Drv>, out: map<string, Drv>, name: string, load: string -> Option<Drv>) {
    forall k :: k in out && k !in out0 && k != name ==> load(k) == Some(out[k])
  }

  /** `out0`'s entries are still there, unchanged. */
  ghost predicate Keeps(out0: map<string, Drv>, out: map<string, Drv>) {
    forall k :: k in out0 ==> k in out && out[k] == out0[k]
  }

  /** Every derivation that `out` has and `out0` lacks is what `load` gives. */
  ghost predicate Loaded(out0: map<string, Drv>, out: map<string, Drv>, load: string -> Option<Drv>) {
    forall k :: k in out && k !in out0 ==> load(k) == Some(out[k])
  }

  /**
    The map and the failed path after `add_to_closure` of `drv` at `name`
    over `out`: unchanged when `name` is a key, otherwise `name` recorded
    and then each input derivation added in turn. `universe` makes the walk
    finite.
  */
  ghost function Gathered(out: map<string, Drv>, name: string, drv: Drv, load: string -> Option<Drv>,
                          universe: set<string>): (r: (map<string, Drv>, Option<string>))
    requires name in universe && Inputs(drv) <= universe
    requires ReaderWithin(load, universe) && MapWithin(out, universe)
    ensures MapWithin(r.0, universe) && Keeps(out, r.0)
    ensures name in out ==> r == (out, None)
    ensures name in r.0 && (name !in out ==> r.0[name] == drv)
    ensures r.1.None? && name !in out ==> Inputs(drv) <= r.0.Keys
    ensures r.1.None? ==> NewClosed(out, r.0)
    ensures NewLoaded(out, r.0, name, load)
    ensures r.1.Some? ==> r.1.value in universe && load(r.1.value).None?
    decreases universe - out.Keys, 0
  {
    if name in out then (out, None)
    else GatheredInputs(out[name := drv], drv, 0, load, universe)
  }

  /** The input derivations of `drv` from the `i`-th on, added in turn; the first failure ends the walk. */
  ghost function GatheredInputs(out: map<string, Drv>, drv: Drv, i: nat, load: string -> Option<Drv>,
                                universe: set<string>): (r: (map<string, Drv>, Option<string>))
    requires i <= |drv.inputDrvs| && Inputs(drv) <= universe && InputPaths(drv, i) <= out.Keys
    requires ReaderWithin(load, universe) && MapWithin(out, universe)
    ensures MapWithin(r.0, universe) && Keeps(out, r.0)
    ensures r.1.None? ==> Inputs(drv) <= r.0.Keys && NewClosed(out, r.0)
    ensures Loaded(out, r.0, load)
    ensures r.1.Some? ==> r.1.value in universe && load(r.1.value).None?
    decreases universe - out.Keys, |drv.inputDrvs| - i + 2
  {
    if i == |drv.inputDrvs| then (out, None)
    else
      var path := drv.inputDrvs[i].path;
      assert path in Inputs(drv);
      var step := GatheredInput(out, path, load, universe);
      if step.1.Some? then step
      else
        InputPathsStep(drv, i);
        var r := GatheredInputs(step.0, drv, i + 1, load, universe);
        NewClosedTransitive(out, step.0, r.0);
        r
  }

  /**
    One input path over `out`: the call returns at once when `path` is a
    key; otherwise the derivation its file holds is added, or the path is
    the one that failed.
  */
  ghost function GatheredInput(out: map<string, Drv>, path: string, load: string -> Option<Drv>,
                               universe: set<string>): (r: (map<string, Drv>, Option<string>))
    requires path in universe && ReaderWithin(load, universe) && MapWithin(out, universe)
    ensures MapWithin(r.0, universe) && Keeps(out, r.0)
    ensures path in out ==> r == (out, None)
    ensures r.1.None? ==> path in r.0 && NewClosed(out, r.0)
    ensures Loaded(out, r.0, load)
    ensures r.1.Some? ==> r.1.value in universe && load(r.1.value).None?
    decreases universe - out.Keys, 1
  {
    if path in out then (out, None)
    else if load(path).None? then (out, Some(path))
    else Gathered(out, path, load(path).value, load, universe)
  }

  /** New derivations whose inputs are keys stay so as the map grows. */
  lemma NewClosedTransitive(out0: map<string, Drv>, out1: map<string, Drv>, out: map<string, Drv>)
    requires Keeps(out1, out) && NewClosed(out0, out1)
    ensures NewClosed(out1, out) ==> NewClosed(out0, out)
  {
    forall k | k in out && k !in out0 && NewClosed(out1, out)
      ensures Inputs(out[k]) <= out.Keys
    {
      if k in out1 {
        assert out[k] == out1[k];
      }
    }
  }

  /** One step of the walk over the inputs: the `i`-th input is added first. */
  lemma GatheredInputsStep(out: map<string, Drv>, drv: Drv, i: nat, load: string -> Option<Drv>, universe: set<string>)
    requires i < |drv.inputDrvs| && Inputs(drv) <= universe && InputPaths(drv, i) <= out.Keys
    requires ReaderWithin(load, universe) && MapWithin(out, universe)
    ensures drv.inputDrvs[i].path in universe
    ensures var step := GatheredInput(out, drv.inputDrvs[i].path, load, universe);
      step.1.None? ==> InputPaths(drv, i + 1) <= step.0.Keys
    ensures var step := GatheredInput(out, drv.inputDrvs[i].path, load, universe);
      GatheredInputs(out, drv, i, load, universe)
        == if step.1.Some? then step else GatheredInputs(step.0, drv, i + 1, load, universe)
  {
    assert drv.inputDrvs[i].path in Inputs(drv);
    InputPathsStep(drv, i);
  }

  /** A derivation without input derivations gathers into a map holding only itself. */
  lemma GatheredLeaf(name: string, drv: Drv, load: string -> Option<Drv>, universe: set<string>)
    requires name in universe && drv.inputDrvs == [] && ReaderWithin(load, universe)
    ensures Gathered(map[], name, drv, load, universe) == (map[name := drv], None)
  {
    assert InputPaths(drv, 0) == {};
  }

  /** The map being filled by `add_to_closure`. */
  class DrvClosure {
    var out: map<string, Drv>

    constructor Empty()
      ensures out == map[]
    {
      out := map[];
    }

    /**
      `add_to_closure`: unless `name` is already present, records it with
      `drv` and then walks `drv`'s input derivations in order, reusing a
      derivation already in the map and reading the file otherwise.
      `universe` bounds the walk: it holds `name`, every input named by a
      derivation in it, and the map's keys.
    */
    method AddToClosure(name: string, drv: Drv, load: string -> Option<Drv>, ghost universe: set<string>)
      returns (failed: Option<string>)
      modifies this
      requires name in universe && Inputs(drv) <= universe
      requires ReaderWithin(load, universe) && MapWithin(out, universe)
      ensures (out, failed) == Gathered(old(out), name, drv, load, universe)
      ensures MapWithin(out, universe)
      ensures old(name in out) ==> out == old(out) && failed.None?
      ensures Keeps(old(out), out)
      ensures name in out && (old(name !in out) ==> out[name] == drv)
      ensures failed.None? && old(name !in out) ==> Inputs(drv) <= out.Keys
      ensures failed.None? ==> NewClosed(old(out), out)
      ensures NewLoaded(old(out), out, name, load)
      ensures failed.Some? ==> failed.value in universe && load(failed.value).None?
      decreases universe - out.Keys, 0
    {
      if name in out {
        return None;
      }
      ghost var out0 := out;
      out := out[name := drv];
      assert name in universe - out0.Keys;
      failed := AddInputs(name, drv, load, universe, out0);
    }

    /** The loop of `add_to_closure` over the input derivations of `drv`, just recorded as `name`. */
    method AddInputs(name: string, drv: Drv, load: string -> Option<Drv>, ghost universe: set<string>,
                     ghost out0: map<string, Drv>)
      returns (failed: Option<string>)
      modifies this
      requires name !in out0 && out == out0[name := drv]
      requires name in universe && Inputs(drv) <= universe
      requires ReaderWithin(load, universe) && MapWithin(out, universe)
      ensures (out, failed) == GatheredInputs(out0[name := drv], drv, 0, load, universe)
      decreases universe - out.Keys, 2
    {
      ghost var out1 := out;
      ghost var target := GatheredInputs(out1, drv, 0, load, universe);
      var i := 0;
      while i < |drv.inputDrvs|
        invariant 0 <= i <= |drv.inputDrvs|
        invariant MapWithin(out, universe) && InputPaths(drv, i) <= out.Keys && out1.Keys <= out.Keys
        invariant GatheredInputs(out, drv, i, load, universe) == target
      {
        var path := drv.inputDrvs[i].path;
        assert path in Inputs(drv);
        failed := AddInput(path, load, universe, drv, i);
        if failed.Some? {
          return;
        }
        i := i + 1;
      }
      failed := None;
    }

    /**
      One input derivation of the walk, the `i`-th of `drv`: the derivation
      already recorded for `path` if there is one, otherwise the one its file
      holds, is added to the closure.
    */
    method AddInput(path: string, load: string -> Option<Drv>, ghost universe: set<string>, ghost drv: Drv, ghost i: nat)
      returns (failed: Option<string>)
      modifies this
      requires i < |drv.inputDrvs| && path == drv.inputDrvs[i].path && Inputs(drv) <= universe
      requires InputPaths(drv, i) <= out.Keys
      requires path in universe && ReaderWithin(load, universe) && MapWithin(out, universe)
      ensures (out, failed) == GatheredInput(old(out), path, load, universe)
      ensures MapWithin(out, universe) && Keeps(old(out), out)
      ensures old(path in out) ==> out == old(out) && failed.None?
      ensures failed.None? ==> path in out && NewClosed(old(out), out)
      ensures Loaded(old(out), out, load)
      ensures failed.Some? ==> failed.value in universe && load(failed.value).None?
      ensures failed.None? ==> InputPaths(drv, i + 1) <= out.Keys
      ensures GatheredInputs(old(out), drv, i, load, universe)
        == if failed.Some? then (out, failed) else GatheredInputs(out, drv, i + 1, load, universe)
      decreases universe - out.Keys, 1
    {
      GatheredInputsStep(out, drv, i, load, universe);
      var input: Drv;
      if path in out {
        input := out[path];
      } else {
        var read := load(path);
        if read.None? {
          return Some(path);
        }
        input := read.value;
      }
      failed := AddToClosure(path, input, load, universe);
    }
  }

  /**
    `gather_closure`: the closure of `drv`, named `name`, over its input
    derivations. Unless a file failed to load, the map holds `name` with
    `drv`, names every input of every derivation in it, and holds every other
    path with the derivation its file contains.
  */
  method GatherClosure(name: string, drv: Drv, files: string -> Option<seq<char>>, ghost universe: set<string>)
    returns (closure: map<string, Drv>, failed: Option<string>)
    requires name in universe && Inputs(drv) <= universe && FilesWithin(files, universe)
    ensures closure.Keys <= universe
    ensures failed.None? ==> name in closure && closure[name] == drv
    ensures failed.None? ==> forall k :: k in closure ==> Inputs(closure[k]) <= closure.Keys
    ensures forall k :: k in closure && k != name ==> ReadDrv(files, k) == Some(closure[k])
    ensures failed.Some? ==> failed.value in universe && ReadDrv(files, failed.value).None?
    ensures (closure, failed) == Gathered(map[], name, drv, p => ReadDrv(files, p), universe)
  {
    var c := new DrvClosure.Empty();
    var load := p => ReadDrv(files, p);
    assert ReaderWithin(load, universe);
    failed := c.AddToClosure(name, drv, load, universe);
    closure := c.out;
  }

  // ---------------------------------------------------------------------------
  // Facts

  /** A file holding exactly a printed derivation reads back as that derivation. */
  lemma ReadDrvOfShow(files: string -> Option<seq<char>>, path: string, d: Drv)
    requires files(path) == Some(ShowDrv(d))
    ensures ReadDrv(files, path) == Some(d)
  {
    DrvRoundTrip(d, []);
    assert ShowDrv(d) + [] == ShowDrv(d);
  }

  /** Anything after the derivation makes the read fail. */
  lemma ReadDrvRejectsTrailing(files: string -> Option<seq<char>>, path: string, d: Drv, rest: seq<char>)
    requires files(path) == Some(ShowDrv(d) + rest) && rest != []
    ensures ReadDrv(files, path).None?
  {
    DrvRoundTrip(d, rest);
  }
}
