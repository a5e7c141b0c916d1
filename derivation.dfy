/**
  The derivation (`.drv`) grammar: an ATerm-like, positional text format

    Derive([outputs],[input drvs],[input sources],"platform","builder",[args],[env pairs])

  Each parser takes the remaining input and returns the parsed value together with
  the input it did not consume, or None when the input does not match. Every
  character of the input stands for one byte of the file.
*/
module Derivation {
  import opened Wrappers

  datatype DrvOutput = DrvOutput(key: string, path: string, hashAlgo: string, hash: string)

  datatype InputDrv = InputDrv(path: string, outputs: seq<string>)

  datatype Drv = Drv(
    outputs: seq<DrvOutput>,
    inputDrvs: seq<InputDrv>,
    inputSrcs: seq<string>,
    platform: string,
    builder: string,
    builderArgs: seq<string>,
    env: seq<(string, string)>)

  type Parser<T> = seq<char> -> Option<(T, seq<char>)>

  /** Every success of `p` consumes at least one character. */
  ghost predicate Consumes<T>(p: Parser<T>) {
    forall s :: p(s).Some? ==> |p(s).value.1| < |s|
  }

  /** `p` is a left inverse of `show`, whatever follows the printed text. */
  ghost predicate Inverse<T(!new)>(p: Parser<T>, show: T -> seq<char>) {
    forall x, rest :: p(show(x) + rest) == Some((x, rest))
  }

  /** `p` fails on input that starts with `c`. */
  ghost predicate RejectsAt<T>(p: Parser<T>, c: char) {
    forall s :: |s| > 0 && s[0] == c ==> p(s) == None
  }

  // ---------------------------------------------------------------------------
  // Single characters and literal tags

  /** Consumes the single character `c`. */
  function Char(c: char, s: seq<char>): (r: Option<seq<char>>)
    ensures r.Some? <==> |s| > 0 && s[0] == c
    ensures r.Some? ==> r.value == s[1..]
  {
    if |s| > 0 && s[0] == c then Some(s[1..]) else None
  }

  /** Consumes the literal `t`. */
  function Tag(t: seq<char>, s: seq<char>): (r: Option<seq<char>>)
    ensures r.Some? <==> t <= s
    ensures r.Some? ==> s == t + r.value
  {
    if t <= s then Some(s[|t|..]) else None
  }

  /** `opt!(comma)`: consumes one comma if there is one. */
  function OptComma(s: seq<char>): (r: seq<char>)
    ensures r == s || (s == [','] + r)
  {
    if |s| > 0 && s[0] == ',' then s[1..] else s
  }

  // ---------------------------------------------------------------------------
  // Strings

  /** The four escapes the grammar knows, keyed by the character after the backslash. */
  function Unescape(c: char): Option<char> {
    match c
    case '\\' => Some('\\')
    case '"' => Some('"')
    case 'n' => Some('\n')
    case 't' => Some('\t')
    case _ => None
  }

  /**
    The body of a string after its opening quote: plain characters stand for
    themselves, a backslash must be followed by one of the four escapes, and the
    closing quote ends the string and is consumed.
  */
  function StringBody(s: seq<char>): (r: Option<(string, seq<char>)>)
    ensures r.Some? ==> |r.value.1| < |s|
    decreases |s|
  {
    if |s| == 0 then None
    else if s[0] == '"' then Some(([], s[1..]))
    else if s[0] == '\\' then
      if |s| < 2 then None
      else
        match Unescape(s[1])
        case None => None
        case Some(c) =>
          match StringBody(s[2..])
          case None => None
          case Some(body) => Some(([c] + body.0, body.1))
    else
      match StringBody(s[1..])
      case None => None
      case Some(body) => Some(([s[0]] + body.0, body.1))
  }

  /** `string`: a double-quoted string with escapes. */
  function ParseString(s: seq<char>): (r: Option<(string, seq<char>)>)
    ensures r.Some? ==> |r.value.1| < |s|
  {
    if |s| > 0 && s[0] == '"' then StringBody(s[1..]) else None
  }

  // ---------------------------------------------------------------------------
  // Lists: `[` elements separated by `,` `]`

  /**
    `separated_list_complete!(char!(','), p)`: no element gives the empty list;
    after an element, a comma followed by an element continues the list, and a
    comma not followed by an element is left unconsumed.
  */
  function Elements<T>(p: Parser<T>, s: seq<char>): (r: (seq<T>, seq<char>))
    requires Consumes(p)
    ensures |r.1| <= |s|
  {
    match p(s)
    case None => ([], s)
    case Some(first) =>
      var more := MoreElements(p, first.1);
      ([first.0] + more.0, more.1)
  }

  function MoreElements<T>(p: Parser<T>, s: seq<char>): (r: (seq<T>, seq<char>))
    requires Consumes(p)
    ensures |r.1| <= |s|
    decreases |s|
  {
    if |s| > 0 && s[0] == ',' then
      match p(s[1..])
      case None => ([], s)
      case Some(next) =>
        var more := MoreElements(p, next.1);
        ([next.0] + more.0, more.1)
    else ([], s)
  }

  /** `list_of!`: the bracketed list. */
  function ListOf<T>(p: Parser<T>, s: seq<char>): (r: Option<(seq<T>, seq<char>)>)
    requires Consumes(p)
    ensures r.Some? ==> |r.value.1| < |s|
  {
    var afterOpen :- Char('[', s);
    var elems := Elements(p, afterOpen);
    var afterClose :- Char(']', elems.1);
    Some((elems.0, afterClose))
  }

  // ---------------------------------------------------------------------------
  // Structs and tuples: `(` each field followed by an optional comma `)`

  /** One field of `struct_of!`/`tuple_of!`: the field's parser, then `opt!(comma)`. */
  function Field<T>(p: Parser<T>, s: seq<char>): (r: Option<(T, seq<char>)>)
    ensures r.Some? <==> p(s).Some?
    ensures r.Some? ==> r.value.0 == p(s).value.0 && |r.value.1| <= |p(s).value.1|
  {
    var x :- p(s);
    Some((x.0, OptComma(x.1)))
  }

  lemma StringConsumes()
    ensures Consumes(ParseString)
  {
  }

  function StringList(s: seq<char>): (r: Option<(seq<string>, seq<char>)>)
    ensures r.Some? ==> |r.value.1| < |s|
  {
    StringConsumes();
    ListOf(ParseString, s)
  }

  /** `drv_output`: `(key, path, hash_algo, hash)`. */
  function ParseDrvOutput(s: seq<char>): (r: Option<(DrvOutput, seq<char>)>)
    ensures r.Some? ==> |r.value.1| < |s|
  {
    var s0 :- Char('(', s);
    var key :- Field(ParseString, s0);
    var path :- Field(ParseString, key.1);
    var algo :- Field(ParseString, path.1);
    var hash :- Field(ParseString, algo.1);
    var s1 :- Char(')', hash.1);
    Some((DrvOutput(key.0, path.0, algo.0, hash.0), s1))
  }

  /** `input_drv`: `(path, [output keys])`. */
  function ParseInputDrv(s: seq<char>): (r: Option<(InputDrv, seq<char>)>)
    ensures r.Some? ==> |r.value.1| < |s|
  {
    var s0 :- Char('(', s);
    var path :- Field(ParseString, s0);
    var outs :- Field(StringList, path.1);
    var s1 :- Char(')', outs.1);
    Some((InputDrv(path.0, outs.0), s1))
  }

  /** `tuple_string_string`: an environment entry `(key, value)`. */
  function ParseEnvPair(s: seq<char>): (r: Option<((string, string), seq<char>)>)
    ensures r.Some? ==> |r.value.1| < |s|
  {
    var s0 :- Char('(', s);
    var key :- Field(ParseString, s0);
    var value :- Field(ParseString, key.1);
    var s1 :- Char(')', value.1);
    Some(((key.0, value.0), s1))
  }

  lemma ElementParsersConsume()
    ensures Consumes(ParseDrvOutput) && Consumes(ParseInputDrv) && Consumes(ParseEnvPair)
  {
  }

  function DrvOutputList(s: seq<char>): (r: Option<(seq<DrvOutput>, seq<char>)>)
    ensures r.Some? ==> |r.value.1| < |s|
  {
    ElementParsersConsume();
    ListOf(ParseDrvOutput, s)
  }

  function InputDrvList(s: seq<char>): (r: Option<(seq<InputDrv>, seq<char>)>)
    ensures r.Some? ==> |r.value.1| < |s|
  {
    ElementParsersConsume();
    ListOf(ParseInputDrv, s)
  }

  function EnvList(s: seq<char>): (r: Option<(seq<(string, string)>, seq<char>)>)
    ensures r.Some? ==> |r.value.1| < |s|
  {
    ElementParsersConsume();
    ListOf(ParseEnvPair, s)
  }

  const DeriveTag: seq<char> := "Derive"

  /**
    `drv`: the literal `Derive`, then the seven fields in their fixed order. The
    input after the closing parenthesis is returned, not required to be empty.
  */
  function ParseDrv(s: seq<char>): (r: Option<(Drv, seq<char>)>)
    ensures r.Some? ==> DeriveTag <= s && |r.value.1| < |s|
  {
    var s0 :- Tag(DeriveTag, s);
    var s1 :- Char('(', s0);
    var outputs :- Field(DrvOutputList, s1);
    var inputDrvs :- Field(InputDrvList, outputs.1);
    var inputSrcs :- Field(StringList, inputDrvs.1);
    var platform :- Field(ParseString, inputSrcs.1);
    var builder :- Field(ParseString, platform.1);
    var args :- Field(StringList, builder.1);
    var env :- Field(EnvList, args.1);
    var s2 :- Char(')', env.1);
    Some((Drv(outputs.0, inputDrvs.0, inputSrcs.0, platform.0, builder.0, args.0, env.0), s2))
  }
}
