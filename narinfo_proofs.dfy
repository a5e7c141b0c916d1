/**
  A printer for cache records, and the facts connecting it to the parser:
  every record whose values are single lines parses back to itself, numbers
  round-trip through their decimal form exactly when they fit in 64 bits, the
  `Deriver` line is optional, and the `404` body is never a record.
*/
module NarinfoProofs {
  import opened Wrappers
  import opened Derivation
  import opened Narinfo

  // ---------------------------------------------------------------------------
  // Lines

  /** A value `data` can stand for: the empty line's newline, or one non-empty line. */
  predicate SingleLine(v: seq<char>) {
    v == ['\n'] || (v != [] && '\n' !in v)
  }

  function ShowLine(v: seq<char>): seq<char> {
    if v == ['\n'] then ['\n'] else v + ['\n']
  }

  lemma {:induction false} NewlineAfter(v: seq<char>, rest: seq<char>)
    requires '\n' !in v
    ensures NewlineAt(v + ['\n'] + rest) == |v|
  {
    if v != [] {
      assert (v + ['\n'] + rest)[1..] == v[1..] + ['\n'] + rest;
      NewlineAfter(v[1..], rest);
    }
  }

  lemma DataOfShowLine(v: seq<char>, rest: seq<char>)
    requires SingleLine(v)
    ensures Data(ShowLine(v) + rest) == Some((v, rest))
  {
    if v != ['\n'] {
      var s := ShowLine(v) + rest;
      assert s == v + ['\n'] + rest;
      NewlineAfter(v, rest);
      assert s[..|v|] == v;
      assert s[|v| + 1..] == rest;
    }
  }

  /** The test vectors of `data`: the empty line, and a line with leading blanks. */
  lemma DataVectors(empty: seq<char>, line: seq<char>)
    requires empty == "\n" && line == "  foo\n"
    ensures Data(empty).Some?
    ensures Data(line) == Some(("  foo", []))
  {
    DataOfShowLine("  foo", []);
    assert ShowLine("  foo") + [] == line;
  }

  // ---------------------------------------------------------------------------
  // Numbers

  function DigitChar(d: nat): char
    requires d < 10
  {
    ('0' as int + d) as char
  }

  /** The decimal digits of `n`, most significant first, without leading zeros. */
  function Decimal(n: nat): seq<char>
    decreases n
  {
    if n < 10 then [DigitChar(n)] else Decimal(n / 10) + [DigitChar(n % 10)]
  }

  lemma {:induction false} DecimalDigits(n: nat)
    ensures Decimal(n) != [] && AllDigits(Decimal(n))
    ensures DigitsValue(Decimal(n)) == n
    decreases n
  {
    if n >= 10 {
      DecimalDigits(n / 10);
      var ds := Decimal(n);
      assert ds[..|ds| - 1] == Decimal(n / 10);
    }
  }

  /** A decimal numeral reads back as its value exactly when the value fits in 64 bits. */
  lemma ParseU64Decimal(m: nat)
    ensures ParseU64(Decimal(m)) == (if m < U64Limit then Some(m) else None)
  {
    DecimalDigits(m);
    assert Decimal(m)[0] != '+';
  }

  /** A leading plus sign is accepted and changes nothing. */
  lemma ParseU64Plus(m: nat)
    ensures ParseU64(['+'] + Decimal(m)) == ParseU64(Decimal(m))
  {
    DecimalDigits(m);
    assert (['+'] + Decimal(m))[1..] == Decimal(m);
  }

  /** A minus sign is never accepted. */
  lemma ParseU64RejectsMinus(t: seq<char>)
    ensures ParseU64(['-'] + t) == None
  {
    assert !IsDigit((['-'] + t)[0]);
  }

  /** An empty `FileSize`/`NarSize` line is not a number. */
  lemma EmptySizeFails(rest: seq<char>)
    ensures Size(['\n'] + rest) == None
  {
    assert Data(['\n'] + rest) == Some((['\n'], rest));
    assert !IsDigit('\n');
  }

  // ---------------------------------------------------------------------------
  // Records

  /** The line `key: value`, followed by `next`. */
  function KeyLine(key: seq<char>, v: seq<char>, next: seq<char>): seq<char> {
    key + (ShowLine(v) + next)
  }

  /** The printed record followed by `rest`: the lines in their fixed order, `Deriver` only when there is one. */
  function ShowNarInfoThen(n: NarInfo, rest: seq<char>): seq<char> {
    var sig := KeyLine(SigTag, n.sig, rest);
    var deriver := if n.deriver.Some? then KeyLine(DeriverTag, n.deriver.value, sig) else sig;
    KeyLine(StorePathTag, n.storePath,
    KeyLine(URLTag, n.url,
    KeyLine(CompressionTag, n.compression,
    KeyLine(FileHashTag, n.fileHash,
    KeyLine(FileSizeTag, Decimal(n.fileSize),
    KeyLine(NarHashTag, n.narHash,
    KeyLine(NarSizeTag, Decimal(n.narSize),
    KeyLine(ReferencesTag, n.references, deriver))))))))
  }

  function ShowNarInfo(n: NarInfo): seq<char> {
    ShowNarInfoThen(n, [])
  }

  /** Every text value of the record is a single line. */
  predicate Printable(n: NarInfo) {
    SingleLine(n.storePath) && SingleLine(n.url) && SingleLine(n.compression)
    && SingleLine(n.fileHash) && SingleLine(n.narHash) && SingleLine(n.references)
    && (n.deriver.Some? ==> SingleLine(n.deriver.value)) && SingleLine(n.sig)
  }

  lemma TagDataOfKeyLine(key: seq<char>, v: seq<char>, next: seq<char>)
    requires SingleLine(v)
    ensures TagData(key, KeyLine(key, v, next)) == Some((v, next))
  {
    assert KeyLine(key, v, next)[|key|..] == ShowLine(v) + next;
    DataOfShowLine(v, next);
  }

  lemma TagSizeOfKeyLine(key: seq<char>, m: U64, next: seq<char>)
    ensures TagSize(key, KeyLine(key, Decimal(m), next)) == Some((m, next))
  {
    assert KeyLine(key, Decimal(m), next)[|key|..] == ShowLine(Decimal(m)) + next;
    DecimalDigits(m);
    assert '\n' !in Decimal(m) by {
      assert !IsDigit('\n');
    }
    DataOfShowLine(Decimal(m), next);
    ParseU64Decimal(m);
  }

  /** The optional `Deriver` line is read back exactly when it was printed. */
  lemma OptDeriverOfShow(d: Option<string>, sig: string, rest: seq<char>)
    requires d.Some? ==> SingleLine(d.value)
    ensures
      var s := KeyLine(SigTag, sig, rest);
      OptDeriver(if d.Some? then KeyLine(DeriverTag, d.value, s) else s) == Some((d, s))
  {
    var s := KeyLine(SigTag, sig, rest);
    if d.Some? {
      TagDataOfKeyLine(DeriverTag, d.value, s);
      assert DeriverTag <= KeyLine(DeriverTag, d.value, s);
    } else {
      assert s[0] == 'S';
      assert !(DeriverTag <= s) by {
        assert DeriverTag[0] == 'D';
      }
    }
  }

  /** `narinfo` parses a printed record back to itself, and returns what follows it. */
  lemma NarInfoRoundTrip(n: NarInfo, rest: seq<char>)
    requires Printable(n)
    ensures ParseNarInfo(ShowNarInfoThen(n, rest)) == Some((n, rest))
  {
    var t9 := KeyLine(SigTag, n.sig, rest);
    var t8 := if n.deriver.Some? then KeyLine(DeriverTag, n.deriver.value, t9) else t9;
    var t7 := KeyLine(ReferencesTag, n.references, t8);
    var t6 := KeyLine(NarSizeTag, Decimal(n.narSize), t7);
    var t5 := KeyLine(NarHashTag, n.narHash, t6);
    var t4 := KeyLine(FileSizeTag, Decimal(n.fileSize), t5);
    var t3 := KeyLine(FileHashTag, n.fileHash, t4);
    var t2 := KeyLine(CompressionTag, n.compression, t3);
    var t1 := KeyLine(URLTag, n.url, t2);
    TagDataOfKeyLine(StorePathTag, n.storePath, t1);
    TagDataOfKeyLine(URLTag, n.url, t2);
    TagDataOfKeyLine(CompressionTag, n.compression, t3);
    TagDataOfKeyLine(FileHashTag, n.fileHash, t4);
    TagSizeOfKeyLine(FileSizeTag, n.fileSize, t5);
    TagDataOfKeyLine(NarHashTag, n.narHash, t6);
    TagSizeOfKeyLine(NarSizeTag, n.narSize, t7);
    TagDataOfKeyLine(ReferencesTag, n.references, t8);
    OptDeriverOfShow(n.deriver, n.sig, rest);
    TagDataOfKeyLine(SigTag, n.sig, rest);
  }

  /** `NarInfo::from` recovers a printed record, whatever follows it in the body. */
  lemma NarInfoFromRoundTrip(n: NarInfo, trailer: seq<char>)
    requires Printable(n)
    ensures NarInfoFrom(ShowNarInfoThen(n, trailer)) == Some(n)
  {
    NarInfoRoundTrip(n, trailer);
    var body := ShowNarInfoThen(n, trailer);
    assert body != NotFoundBody by {
      assert StorePathTag <= body;
      assert body[0] == 'S';
    }
  }

  /** The `404` body is not a record either, so the early return only names the case. */
  lemma NotFoundIsNoRecord()
    ensures NarInfoFrom(NotFoundBody) == None
    ensures ParseNarInfo(NotFoundBody) == None
  {
    assert !(StorePathTag <= NotFoundBody) by {
      assert StorePathTag[0] != NotFoundBody[0];
    }
  }

  /** Every value ends with a newline, so a body without one is not a record. */
  lemma NoNewlineFails(body: seq<char>)
    requires '\n' !in body
    ensures ParseNarInfo(body) == None
  {
    if StorePathTag <= body {
      assert '\n' !in body[|StorePathTag|..] by {
        forall i | 0 <= i < |body| - |StorePathTag|
          ensures body[|StorePathTag|..][i] != '\n'
        {
          assert body[|StorePathTag|..][i] == body[|StorePathTag| + i];
        }
      }
    }
  }
}
