/**
  Store hashes and store paths. A store item's file name is its 32-character
  hash, one separator character and a human-readable name, e.g.
  `rgmc4d3spji36n2l1sicm80yq79dpcc2-hello-2.10` under `/nix/store/`.
*/
module StorePaths {
  const HashLength: nat := 32

  /** The first 32 bytes of a store item's file name. */
  type StoreHash = h: seq<char> | |h| == HashLength
    witness "00000000000000000000000000000000"

  /** `Path::file_name`, read as the text after the last `/`. */
  function FileName(path: seq<char>): seq<char> {
    if path == [] || path[|path| - 1] == '/' then []
    else FileName(path[..|path| - 1]) + [path[|path| - 1]]
  }

  /** `StoreHash::from_name`: the hash at the start of a file name; shorter names are refused. */
  function FromName(name: seq<char>): (h: StoreHash)
    requires |name| >= HashLength
    ensures name == h + name[HashLength..]
  {
    name[..HashLength]
  }

  /**
    `StoreHash::split`: the hash, and the name after the single separator
    character that follows it (whatever that character is).
  */
  function Split(name: seq<char>): (r: (StoreHash, seq<char>))
    requires |name| > HashLength
    ensures name == r.0 + [name[HashLength]] + r.1
    ensures r.0 == FromName(name)
  {
    (name[..HashLength], name[HashLength + 1..])
  }

  /** `StoreHash::split_path`: `split` applied to the file name of a path. */
  function SplitPath(path: seq<char>): (r: (StoreHash, seq<char>))
    requires |FileName(path)| > HashLength
    ensures FileName(path) == r.0 + [FileName(path)[HashLength]] + r.1
    ensures r.0 == FromPath(path)
  {
    Split(FileName(path))
  }

  /** `StoreHash::from_path`: `from_name` applied to the file name of a path. */
  function FromPath(path: seq<char>): (h: StoreHash)
    requires |FileName(path)| >= HashLength
    ensures FileName(path) == h + FileName(path)[HashLength..]
  {
    FromName(FileName(path))
  }

  // ---------------------------------------------------------------------------
  // Facts

  /** `from_name` is a left inverse of prefixing a hash. */
  lemma FromNameOfHash(h: StoreHash, rest: seq<char>)
    ensures FromName(h + rest) == h
  {
    assert (h + rest)[..HashLength] == h;
  }

  /** `split` takes a file name apart into exactly the hash and name it was made of. */
  lemma SplitOfName(h: StoreHash, sep: char, name: seq<char>)
    ensures Split(h + [sep] + name) == (h, name)
  {
    var s := h + [sep] + name;
    assert s[..HashLength] == h;
    assert s[HashLength + 1..] == name;
  }

  /** The file name is a suffix of the path without a slash, and a slash precedes it unless it is the whole path. */
  lemma {:induction false} FileNameIsLastSegment(path: seq<char>)
    ensures '/' !in FileName(path)
    ensures |FileName(path)| <= |path| && FileName(path) == path[|path| - |FileName(path)|..]
    ensures |FileName(path)| < |path| ==> path[|path| - |FileName(path)| - 1] == '/'
  {
    if path != [] && path[|path| - 1] != '/' {
      var init := path[..|path| - 1];
      var last := path[|path| - 1];
      FileNameIsLastSegment(init);
      var name := FileName(init);
      assert FileName(path) == name + [last];
      assert init[|init| - |name|..] + [last] == path[|path| - |name| - 1..];
      if |name| < |init| {
        assert path[|path| - |name| - 2] == init[|init| - |name| - 1];
      }
    }
  }

  /** The file name of a path is what follows its last slash. */
  lemma {:induction false} FileNameOfPath(dir: seq<char>, name: seq<char>)
    requires '/' !in name
    ensures FileName(dir + ['/'] + name) == name
    decreases |name|
  {
    var p := dir + ['/'] + name;
    if name == [] {
      assert p[|p| - 1] == '/';
    } else {
      var last := name[|name| - 1];
      var init := name[..|name| - 1];
      assert p[..|p| - 1] == dir + ['/'] + init;
      assert '/' !in init by {
        assert forall i :: 0 <= i < |init| ==> init[i] == name[i];
      }
      FileNameOfPath(dir, init);
      assert init + [last] == name;
    }
  }

  /** `from_path` and `split_path` on a path in the store read back the hash and name it was made of. */
  lemma StorePathParts(dir: seq<char>, h: StoreHash, sep: char, name: seq<char>)
    requires '/' !in h && sep != '/' && '/' !in name
    ensures FileName(dir + ['/'] + (h + [sep] + name)) == h + [sep] + name
    ensures FromPath(dir + ['/'] + (h + [sep] + name)) == h
    ensures SplitPath(dir + ['/'] + (h + [sep] + name)) == (h, name)
  {
    var file := h + [sep] + name;
    assert '/' !in file by {
      assert forall i :: 0 <= i < |file| ==> file[i] == (if i < |h| then h[i] else if i == |h| then sep else name[i - |h| - 1]);
    }
    FileNameOfPath(dir, file);
    SplitOfName(h, sep, name);
    FromNameOfHash(h, [sep] + name);
    assert file == h + ([sep] + name);
  }
}
