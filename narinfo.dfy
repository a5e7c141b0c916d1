/**
  The binary-cache record (`.narinfo`): newline-terminated `Key: value` lines in
  a fixed order, each key a literal tag. As for derivations, every character
  stands for one byte of the response body, and the lossy UTF-8 conversion of a
  value is the identity.
*/
module Narinfo {
  import opened Wrappers
  import opened Derivation

  /** Unsigned 64-bit integers. */
  const U64Limit: nat := 0x1_0000_0000_0000_0000
  type U64 = n: nat | n < U64Limit

  datatype NarInfo = NarInfo(
    storePath: string,
    url: string,
    compression: string,
    fileHash: string,
    fileSize: U64,
    narHash: string,
    narSize: U64,
    references: string,
    deriver: Option<string>,
    sig: string)

  // ---------------------------------------------------------------------------
  // Lines

  /** The index of the first newline of `s`, or `|s|` when there is none. */
  function NewlineAt(s: seq<char>): (i: nat)
    ensures i <= |s|
    ensures forall j :: 0 <= j < i ==> s[j] != '\n'
    ensures i < |s| ==> s[i] == '\n'
  {
    if s == [] || s[0] == '\n' then 0 else 1 + NewlineAt(s[1..])
  }

  /**
    `data`: a non-empty run of characters other than newline, then the newline,
    which is consumed; or an empty line, whose value is the newline itself.
    Input without a newline does not form a line.
  */
  function Data(s: seq<char>): (r: Option<(seq<char>, seq<char>)>)
    ensures r.Some? <==> '\n' in s
    ensures r.Some? ==> |r.value.1| < |s|
    ensures r.Some? && s[0] == '\n' ==> r.value == (['\n'], s[1..])
    ensures r.Some? && s[0] != '\n' ==>
      r.value.0 != [] && '\n' !in r.value.0 && s == r.value.0 + ['\n'] + r.value.1
  {
    if s != [] && s[0] == '\n' then Some((['\n'], s[1..]))
    else
      var i := NewlineAt(s);
      if i == |s| then None
      else
        assert s == s[..i] + ['\n'] + s[i + 1..];
        Some((s[..i], s[i + 1..]))
  }

  // ---------------------------------------------------------------------------
  // Unsigned integers, as Rust's `u64::from_str` reads them

  predicate IsDigit(c: char) {
    '0' <= c <= '9'
  }

  predicate AllDigits(s: seq<char>) {
    forall i :: 0 <= i < |s| ==> IsDigit(s[i])
  }

  /** The value of a run of decimal digits, most significant first. */
  function DigitsValue(s: seq<char>): nat
    requires AllDigits(s)
  {
    if s == [] then 0 else 10 * DigitsValue(s[..|s| - 1]) + (s[|s| - 1] as int - '0' as int)
  }

  /**
    `parse_to!(u64)`: an optional `+`, then at least one decimal digit and
    nothing else; a value that does not fit in 64 bits is refused.
  */
  function ParseU64(text: seq<char>): (r: Option<U64>)
    ensures r.Some? ==> text != [] && text != ['+']
  {
    var digits := if text != [] && text[0] == '+' then text[1..] else text;
    if digits == [] || !AllDigits(digits) then None
    else
      var v := DigitsValue(digits);
      if v < U64Limit then Some(v) else None
  }

  /** `size`: a line whose whole value is an unsigned integer. */
  function Size(s: seq<char>): (r: Option<(U64, seq<char>)>)
    ensures r.Some? <==> Data(s).Some? && ParseU64(Data(s).value.0).Some?
    ensures r.Some? ==> r.value == (ParseU64(Data(s).value.0).value, Data(s).value.1)
  {
    var line :- Data(s);
    var n :- ParseU64(line.0);
    Some((n, line.1))
  }

  // ---------------------------------------------------------------------------
  // The record

  const StorePathTag: seq<char> := "StorePath: "
  const URLTag: seq<char> := "URL: "
  const CompressionTag: seq<char> := "Compression: "
  const FileHashTag: seq<char> := "FileHash: "
  const FileSizeTag: seq<char> := "FileSize: "
  const NarHashTag: seq<char> := "NarHash: "
  const NarSizeTag: seq<char> := "NarSize: "
  const ReferencesTag: seq<char> := "References: "
  const DeriverTag: seq<char> := "Deriver: "
  const SigTag: seq<char> := "Sig: "

  /** A literal key, then its text value. */
  function TagData(tag: seq<char>, s: seq<char>): (r: Option<(seq<char>, seq<char>)>)
    ensures r.Some? <==> tag <= s && Data(s[|tag|..]).Some?
    ensures r.Some? ==> r == Data(s[|tag|..])
  {
    var after :- Tag(tag, s);
    Data(after)
  }

  /** A literal key, then its integer value. */
  function TagSize(tag: seq<char>, s: seq<char>): (r: Option<(U64, seq<char>)>)
    ensures r.Some? <==> tag <= s && Size(s[|tag|..]).Some?
    ensures r.Some? ==> r == Size(s[|tag|..])
  {
    var after :- Tag(tag, s);
    Size(after)
  }

  /**
    `opt!(preceded!(tag!("Deriver: "), string))`: no `Deriver: ` key gives no
    deriver and consumes nothing; a key without a complete line fails the
    whole record, because the line parser can only fail for want of input.
  */
  function OptDeriver(s: seq<char>): (r: Option<(Option<string>, seq<char>)>)
    ensures !(DeriverTag <= s) ==> r == Some((None, s))
    ensures DeriverTag <= s ==> (r.Some? <==> TagData(DeriverTag, s).Some?)
    ensures DeriverTag <= s && r.Some? ==>
      r.value == (Some(TagData(DeriverTag, s).value.0), TagData(DeriverTag, s).value.1)
  {
    if DeriverTag <= s then
      var d :- TagData(DeriverTag, s);
      Some((Some(d.0), d.1))
    else Some((None, s))
  }

  /** `narinfo`: the ten keys in their fixed order; what follows the `Sig` line is returned. */
  function ParseNarInfo(s: seq<char>): (r: Option<(NarInfo, seq<char>)>)
    ensures r.Some? ==> StorePathTag <= s
  {
    var storePath :- TagData(StorePathTag, s);
    var url :- TagData(URLTag, storePath.1);
    var compression :- TagData(CompressionTag, url.1);
    var fileHash :- TagData(FileHashTag, compression.1);
    var fileSize :- TagSize(FileSizeTag, fileHash.1);
    var narHash :- TagData(NarHashTag, fileSize.1);
    var narSize :- TagSize(NarSizeTag, narHash.1);
    var references :- TagData(ReferencesTag, narSize.1);
    var deriver :- OptDeriver(references.1);
    var sig :- TagData(SigTag, deriver.1);
    Some((NarInfo(storePath.0, url.0, compression.0, fileHash.0, fileSize.0,
                  narHash.0, narSize.0, references.0, deriver.0, sig.0), sig.1))
  }

  const NotFoundBody: seq<char> := "404"

  /**
    `NarInfo::from`: the literal body `404` means the record is absent;
    any other body is parsed, and whatever follows the record is ignored.
  */
  function NarInfoFrom(body: seq<char>): (r: Option<NarInfo>)
    ensures body == NotFoundBody ==> r == None
    ensures body != NotFoundBody ==> (r.Some? <==> ParseNarInfo(body).Some?)
    ensures r.Some? ==> r.value == ParseNarInfo(body).value.0
  {
    if body == NotFoundBody then None
    else
      match ParseNarInfo(body)
      case None => None
      case Some(parsed) => Some(parsed.0)
  }
}
