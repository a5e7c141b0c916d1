/**
  A printer for the derivation grammar and the facts connecting it to the
  parsers: every derivation printed this way parses back to itself, the four
  escapes are the only ones, lists refuse a trailing comma, struct fields take
  an optional comma, and the grammar's own test vectors.
*/
module DerivationProofs {
  import opened Wrappers
  import opened Derivation

  // ---------------------------------------------------------------------------
  // The printer

  /** Escapes the two characters that cannot appear bare inside a string. */
  function Escape(s: string): seq<char> {
    if s == [] then []
    else (if s[0] == '\\' then ['\\', '\\'] else if s[0] == '"' then ['\\', '"'] else [s[0]]) + Escape(s[1..])
  }

  function Quote(s: string): seq<char> {
    ['"'] + Escape(s) + ['"']
  }

  /** The elements after the first, each preceded by a comma. */
  function ShowTail<T>(show: T -> seq<char>, xs: seq<T>): seq<char> {
    if xs == [] then [] else [','] + show(xs[0]) + ShowTail(show, xs[1..])
  }

  function ShowElements<T>(show: T -> seq<char>, xs: seq<T>): seq<char> {
    if xs == [] then [] else show(xs[0]) + ShowTail(show, xs[1..])
  }

  function ShowList<T>(show: T -> seq<char>, xs: seq<T>): seq<char> {
    ['['] + ShowElements(show, xs) + [']']
  }

  function ShowStringList(xs: seq<string>): seq<char> {
    ShowList(Quote, xs)
  }

  /** The printed fields, separated by commas (concatenated to the right, which keeps the proofs short). */
  function Fields(fields: seq<seq<char>>): seq<char> {
    if fields == [] then []
    else if |fields| == 1 then fields[0]
    else fields[0] + ([','] + Fields(fields[1..]))
  }

  function ShowStruct(fields: seq<seq<char>>): seq<char> {
    ['('] + (Fields(fields) + [')'])
  }

  function ShowDrvOutput(o: DrvOutput): seq<char> {
    ShowStruct([Quote(o.key), Quote(o.path), Quote(o.hashAlgo), Quote(o.hash)])
  }

  function ShowInputDrv(i: InputDrv): seq<char> {
    ShowStruct([Quote(i.path), ShowStringList(i.outputs)])
  }

  function ShowEnvPair(kv: (string, string)): seq<char> {
    ShowStruct([Quote(kv.0), Quote(kv.1)])
  }

  function ShowDrv(d: Drv): seq<char> {
    DeriveTag + ShowStruct([
      ShowList(ShowDrvOutput, d.outputs),
      ShowList(ShowInputDrv, d.inputDrvs),
      ShowStringList(d.inputSrcs),
      Quote(d.platform),
      Quote(d.builder),
      ShowStringList(d.builderArgs),
      ShowList(ShowEnvPair, d.env)])
  }

  // ---------------------------------------------------------------------------
  // Strings

  /** The string body parser undoes Escape, and stops right after the closing quote. */
  lemma {:induction false} StringBodyOfEscape(s: string, rest: seq<char>)
    ensures StringBody(Escape(s) + ['"'] + rest) == Some((s, rest))
  {
    if s == [] {
      assert Escape(s) + ['"'] + rest == ['"'] + rest;
    } else {
      var head := if s[0] == '\\' then ['\\', '\\'] else if s[0] == '"' then ['\\', '"'] else [s[0]];
      var tail := Escape(s[1..]) + ['"'] + rest;
      assert Escape(s) + ['"'] + rest == head + tail;
      StringBodyOfEscape(s[1..], rest);
      assert [s[0]] + s[1..] == s;
      if s[0] == '\\' || s[0] == '"' {
        assert (head + tail)[2..] == tail;
      } else {
        assert (head + tail)[1..] == tail;
      }
    }
  }

  /** `string` parses a quoted, escaped string back to the original, with the rest untouched. */
  lemma ParseQuote(s: string, rest: seq<char>)
    ensures ParseString(Quote(s) + rest) == Some((s, rest))
  {
    assert Quote(s) + rest == ['"'] + (Escape(s) + ['"'] + rest);
    StringBodyOfEscape(s, rest);
  }

  lemma QuoteInverse()
    ensures Inverse(ParseString, Quote)
  {
    forall x, rest ensures ParseString(Quote(x) + rest) == Some((x, rest)) {
      ParseQuote(x, rest);
    }
  }

  /** Characters that stand for themselves inside a string. */
  predicate Plain(p: seq<char>) {
    forall i :: 0 <= i < |p| ==> p[i] != '"' && p[i] != '\\'
  }

  /**
    Text the string body parser reads without meeting its closing quote:
    plain characters and the four escapes. Every string that fails breaks off
    after such a prefix, at an unknown escape, a backslash at the end, or the
    end of the input.
  */
  predicate OpenBody(p: seq<char>)
    decreases |p|
  {
    if p == [] then true
    else if p[0] == '"' then false
    else if p[0] == '\\' then |p| >= 2 && Unescape(p[1]).Some? && OpenBody(p[2..])
    else OpenBody(p[1..])
  }

  /** After an open body, the closing quote ends the string and the rest is left. */
  lemma {:induction false} OpenBodyCloses(p: seq<char>, rest: seq<char>)
    requires OpenBody(p)
    ensures StringBody(p + ['"'] + rest).Some?
    ensures StringBody(p + ['"'] + rest).value.1 == rest
    decreases |p|
  {
    var s := p + ['"'] + rest;
    if p == [] {
      assert s == ['"'] + rest;
    } else if p[0] == '\\' {
      assert s[2..] == p[2..] + ['"'] + rest;
      OpenBodyCloses(p[2..], rest);
    } else {
      assert s[1..] == p[1..] + ['"'] + rest;
      OpenBodyCloses(p[1..], rest);
    }
  }

  /** How far the string body parser reads before it stops: at a quote, a bad backslash or the end. */
  function Scan(s: seq<char>): (n: nat)
    ensures n <= |s|
    decreases |s|
  {
    if s == [] || s[0] == '"' then 0
    else if s[0] == '\\' then
      if |s| >= 2 && Unescape(s[1]).Some? then 2 + Scan(s[2..]) else 0
    else 1 + Scan(s[1..])
  }

  /**
    The parser reads an open body and succeeds exactly when a quote follows it;
    otherwise it fails at the end of the input or at a backslash not starting
    one of the four escapes.
  */
  lemma {:induction false} ScanStops(s: seq<char>)
    ensures OpenBody(s[..Scan(s)])
    ensures StringBody(s).Some? <==> Scan(s) < |s| && s[Scan(s)] == '"'
    ensures StringBody(s).None? ==>
      Scan(s) == |s| || (s[Scan(s)] == '\\' && (Scan(s) + 1 == |s| || Unescape(s[Scan(s) + 1]).None?))
    decreases |s|
  {
    var n := Scan(s);
    if s == [] || s[0] == '"' {
    } else if s[0] == '\\' {
      if |s| >= 2 && Unescape(s[1]).Some? {
        ScanStops(s[2..]);
        assert s[..n][2..] == s[2..][..n - 2];
      }
    } else {
      ScanStops(s[1..]);
      assert s[..n][1..] == s[1..][..n - 1];
    }
  }

  /** Plain text and escaped text are open bodies. */
  lemma {:induction false} PlainIsOpen(p: seq<char>)
    requires Plain(p)
    ensures OpenBody(p)
    decreases |p|
  {
    if p != [] {
      PlainIsOpen(p[1..]);
    }
  }

  lemma {:induction false} EscapeIsOpen(x: string)
    ensures OpenBody(Escape(x))
  {
    if x != [] {
      EscapeIsOpen(x[1..]);
      var head := if x[0] == '\\' then ['\\', '\\'] else if x[0] == '"' then ['\\', '"'] else [x[0]];
      assert Escape(x) == head + Escape(x[1..]);
      assert (head + Escape(x[1..]))[|head|..] == Escape(x[1..]);
    }
  }

  /** After an open body, a backslash followed by anything but `\`, `"`, `n` or `t` makes the string fail. */
  lemma {:induction false} UnknownEscapeFails(p: seq<char>, c: char, t: seq<char>)
    requires OpenBody(p)
    requires c !in {'\\', '"', 'n', 't'}
    ensures StringBody(p + ['\\', c] + t) == None
    ensures ParseString(['"'] + p + ['\\', c] + t) == None
    decreases |p|
  {
    var s := p + ['\\', c] + t;
    if p == [] {
      assert s == ['\\', c] + t;
    } else if p[0] == '\\' {
      assert s[2..] == p[2..] + ['\\', c] + t;
      UnknownEscapeFails(p[2..], c, t);
    } else {
      assert s[1..] == p[1..] + ['\\', c] + t;
      UnknownEscapeFails(p[1..], c, t);
    }
    assert (['"'] + p + ['\\', c] + t)[1..] == s;
  }

  /** After an open body, a backslash that ends the input makes the string fail. */
  lemma {:induction false} DanglingBackslashFails(p: seq<char>)
    requires OpenBody(p)
    ensures StringBody(p + ['\\']) == None
    ensures ParseString(['"'] + p + ['\\']) == None
    decreases |p|
  {
    var s := p + ['\\'];
    if p != [] && p[0] == '\\' {
      assert s[2..] == p[2..] + ['\\'];
      DanglingBackslashFails(p[2..]);
    } else if p != [] {
      assert s[1..] == p[1..] + ['\\'];
      DanglingBackslashFails(p[1..]);
    }
    assert (['"'] + p + ['\\'])[1..] == s;
  }

  /** An open body that reaches the end of the input has no closing quote, so the string fails. */
  lemma {:induction false} UnterminatedFails(p: seq<char>)
    requires OpenBody(p)
    ensures StringBody(p) == None
    ensures ParseString(['"'] + p) == None
    decreases |p|
  {
    if p != [] && p[0] == '\\' {
      UnterminatedFails(p[2..]);
    } else if p != [] {
      UnterminatedFails(p[1..]);
    }
    assert (['"'] + p)[1..] == p;
  }

  /** Plain text is its own escape. */
  lemma {:induction false} EscapePlain(s: string)
    requires Plain(s)
    ensures Escape(s) == s
  {
    if s != [] {
      EscapePlain(s[1..]);
      assert [s[0]] + s[1..] == s;
    }
  }

  /** Quoting text that needs no escaping only adds the quotes. */
  lemma QuotePlain(s: string)
    requires Plain(s)
    ensures Quote(s) == ['"'] + s + ['"']
  {
    EscapePlain(s);
  }

  /**
    The plain test vectors of `parse_string` (`foo`, the empty string, `foo/bar`),
    for every text that needs no escaping.
  */
  lemma StringVectorPlain(x: string, text: seq<char>)
    requires Plain(x)
    requires text == "\"" + x + "\""
    ensures ParseString(text) == Some((x, []))
  {
    QuotePlain(x);
    ParseQuote(x, []);
    assert Quote(x) + [] == text;
  }

  /** A string holding a single escape decodes to the escaped character. */
  lemma EscapeThenClose(e: char, rest: seq<char>)
    requires Unescape(e).Some?
    ensures ParseString(['"', '\\', e, '"'] + rest) == Some(([Unescape(e).value], rest))
  {
    var s := ['"', '\\', e, '"'] + rest;
    var body := ['\\', e, '"'] + rest;
    assert s[1..] == body;
    assert body[2..] == ['"'] + rest;
    assert StringBody(['"'] + rest) == Some(([], rest));
    assert StringBody(body) == Some(([Unescape(e).value] + [], rest));
    assert [Unescape(e).value] + [] == [Unescape(e).value];
  }

  /** The escape test vectors of `parse_string`. */
  lemma StringVectorsEscaped()
    ensures ParseString("\"\\\"\"") == Some(("\"", ""))
    ensures ParseString("\"\\\\\"") == Some(("\\", ""))
    ensures ParseString("\"\\t\"") == Some(("\t", ""))
    ensures ParseString("\"\\n\"") == Some(("\n", ""))
  {
    EscapeThenClose('"', []);
    assert ['"', '\\', '"', '"'] + [] == "\"\\\"\"";
    EscapeThenClose('\\', []);
    assert ['"', '\\', '\\', '"'] + [] == "\"\\\\\"";
    EscapeThenClose('t', []);
    assert ['"', '\\', 't', '"'] + [] == "\"\\t\"";
    EscapeThenClose('n', []);
    assert ['"', '\\', 'n', '"'] + [] == "\"\\n\"";
  }

  // ---------------------------------------------------------------------------
  // Lists

  lemma {:induction false} MoreElementsOfTail<T(!new)>(p: Parser<T>, show: T -> seq<char>, xs: seq<T>, rest: seq<char>)
    requires Consumes(p) && Inverse(p, show)
    ensures MoreElements(p, ShowTail(show, xs) + [']'] + rest) == (xs, [']'] + rest)
  {
    if xs != [] {
      var after := ShowTail(show, xs[1..]) + [']'] + rest;
      assert ShowTail(show, xs) + [']'] + rest == [','] + (show(xs[0]) + after);
      assert p(show(xs[0]) + after) == Some((xs[0], after));
      MoreElementsOfTail(p, show, xs[1..], rest);
      assert [xs[0]] + xs[1..] == xs;
    } else {
      assert ShowTail(show, xs) + [']'] + rest == [']'] + rest;
    }
  }

  /** The elements of a printed list, up to and including the closing bracket. */
  lemma ElementsOfShow<T(!new)>(p: Parser<T>, show: T -> seq<char>, xs: seq<T>, rest: seq<char>)
    requires Consumes(p) && Inverse(p, show) && RejectsAt(p, ']')
    ensures Elements(p, ShowElements(show, xs) + [']'] + rest) == (xs, [']'] + rest)
  {
    if xs == [] {
      assert ShowElements(show, xs) + [']'] + rest == [']'] + rest;
    } else {
      var after := ShowTail(show, xs[1..]) + [']'] + rest;
      assert ShowElements(show, xs) + [']'] + rest == show(xs[0]) + after;
      assert p(show(xs[0]) + after) == Some((xs[0], after));
      MoreElementsOfTail(p, show, xs[1..], rest);
      assert [xs[0]] + xs[1..] == xs;
    }
  }

  /** `list_of!` parses a printed list back to its elements. */
  lemma ListRoundTrip<T(!new)>(p: Parser<T>, show: T -> seq<char>, xs: seq<T>, rest: seq<char>)
    requires Consumes(p) && Inverse(p, show) && RejectsAt(p, ']')
    ensures ListOf(p, ShowList(show, xs) + rest) == Some((xs, rest))
  {
    var inner := ShowElements(show, xs) + [']'] + rest;
    assert ShowList(show, xs) + rest == ['['] + inner;
    ElementsOfShow(p, show, xs, rest);
  }

  /** A comma and a printed element: the element, then whatever follows it. */
  lemma MoreElementsStep<T(!new)>(p: Parser<T>, show: T -> seq<char>, x: T, after: seq<char>)
    requires Consumes(p) && Inverse(p, show)
    ensures MoreElements(p, [','] + (show(x) + after))
         == ([x] + MoreElements(p, after).0, MoreElements(p, after).1)
  {
    var s := [','] + (show(x) + after);
    assert s[1..] == show(x) + after;
    assert p(s[1..]) == Some((x, after));
  }

  lemma MoreElementsStopBase<T>(p: Parser<T>, tail: seq<char>)
    requires Consumes(p)
    requires tail != [] && tail[0] == ',' ==> p(tail[1..]).None?
    ensures MoreElements(p, tail) == ([], tail)
  {
  }

  lemma {:induction false} MoreElementsBeforeTrailingComma<T(!new)>(p: Parser<T>, show: T -> seq<char>, xs: seq<T>, rest: seq<char>)
    requires Consumes(p) && Inverse(p, show) && RejectsAt(p, ']')
    ensures MoreElements(p, ShowTail(show, xs) + ([',', ']'] + rest)) == (xs, [',', ']'] + rest)
  {
    var tail := [',', ']'] + rest;
    if xs == [] {
      assert tail[1..] == [']'] + rest;
      MoreElementsStopBase(p, tail);
      assert ShowTail(show, xs) + tail == tail;
    } else {
      var after := ShowTail(show, xs[1..]) + tail;
      assert ShowTail(show, xs) + tail == [','] + (show(xs[0]) + after);
      MoreElementsStep(p, show, xs[0], after);
      MoreElementsBeforeTrailingComma(p, show, xs[1..], rest);
      assert [xs[0]] + xs[1..] == xs;
    }
  }

  /** A comma right before the closing bracket makes the whole list fail. */
  lemma TrailingCommaFails<T(!new)>(p: Parser<T>, show: T -> seq<char>, xs: seq<T>, rest: seq<char>)
    requires Consumes(p) && Inverse(p, show) && RejectsAt(p, ']')
    requires xs != []
    ensures ListOf(p, ['['] + ShowElements(show, xs) + [',', ']'] + rest) == None
  {
    var after := ShowTail(show, xs[1..]) + ([',', ']'] + rest);
    assert ['['] + ShowElements(show, xs) + [',', ']'] + rest == ['['] + (show(xs[0]) + after);
    assert p(show(xs[0]) + after) == Some((xs[0], after));
    MoreElementsBeforeTrailingComma(p, show, xs[1..], rest);
  }

  /** The empty list, and a list that opens with a comma. */
  lemma EmptyListVectors()
    ensures StringList("[]") == Some(([], ""))
    ensures StringList("[,]") == None
  {
  }

  /** How the list of the `parse_list_of` vector prints, with and without a trailing comma. */
  lemma ListVectorText(x: string)
    requires Plain(x)
    ensures ShowList(Quote, [x]) == "[\"" + x + "\"]"
    ensures ['['] + ShowElements(Quote, [x]) + [',', ']'] == "[\"" + x + "\",]"
  {
    QuotePlain(x);
    assert ShowElements(Quote, [x]) == Quote(x) by {
      assert [x][1..] == [];
    }
  }

  /**
    The test vector of `parse_list_of`, for every element that needs no escaping,
    and the same list with a trailing comma.
  */
  lemma ListVectors(x: string, list: seq<char>, trailing: seq<char>)
    requires Plain(x)
    requires list == "[\"" + x + "\"]" && trailing == "[\"" + x + "\",]"
    ensures StringList(list) == Some(([x], []))
    ensures StringList(trailing) == None
  {
    QuoteInverse();
    StringConsumes();
    assert RejectsAt(ParseString, ']');
    ListVectorText(x);
    ListRoundTrip(ParseString, Quote, [x], []);
    TrailingCommaFails(ParseString, Quote, [x], []);
    assert list + [] == list && trailing + [] == trailing;
  }

  // ---------------------------------------------------------------------------
  // Structs and tuples

  lemma Assoc(a: seq<char>, b: seq<char>, c: seq<char>)
    ensures (a + b) + c == a + (b + c)
  {
  }

  /** The first printed field, then a comma and the other fields. */
  lemma FieldsThen(fields: seq<seq<char>>, rest: seq<char>)
    requires |fields| >= 2
    ensures Fields(fields) + rest == fields[0] + ([','] + (Fields(fields[1..]) + rest))
  {
    Assoc(fields[0], [','] + Fields(fields[1..]), rest);
    Assoc([','], Fields(fields[1..]), rest);
  }

  lemma StructThen(fields: seq<seq<char>>, rest: seq<char>)
    ensures ShowStruct(fields) + rest == ['('] + (Fields(fields) + ([')'] + rest))
  {
    Assoc(['('], Fields(fields) + [')'], rest);
    Assoc(Fields(fields), [')'], rest);
  }

  /** A field followed by a comma: the comma is consumed with the field. */
  lemma FieldThenComma<T>(p: Parser<T>, text: seq<char>, x: T, rest: seq<char>)
    requires p(text + ([','] + rest)) == Some((x, [','] + rest))
    ensures Field(p, text + ([','] + rest)) == Some((x, rest))
  {
  }

  /** A field followed by the closing parenthesis: nothing more is consumed. */
  lemma FieldThenClose<T>(p: Parser<T>, text: seq<char>, x: T, rest: seq<char>)
    requires p(text + ([')'] + rest)) == Some((x, [')'] + rest))
    ensures Field(p, text + ([')'] + rest)) == Some((x, [')'] + rest))
  {
  }

  lemma QuotedThenComma(x: string, rest: seq<char>)
    ensures Field(ParseString, Quote(x) + ([','] + rest)) == Some((x, rest))
  {
    ParseQuote(x, [','] + rest);
  }

  lemma QuotedThenClose(x: string, rest: seq<char>)
    ensures Field(ParseString, Quote(x) + ([')'] + rest)) == Some((x, [')'] + rest))
  {
    ParseQuote(x, [')'] + rest);
  }

  /** A struct field with no comma after it: the next field starts right away. */
  lemma QuotedThenQuoted(x: string, y: string, rest: seq<char>)
    ensures Field(ParseString, Quote(x) + (Quote(y) + rest)) == Some((x, Quote(y) + rest))
  {
    ParseQuote(x, Quote(y) + rest);
    assert (Quote(y) + rest)[0] == '"';
  }

  /** The commas between struct fields are optional: a pair with a comma after each field. */
  lemma EnvPairTrailingComma(k: string, v: string, rest: seq<char>)
    ensures ParseEnvPair(['('] + (Quote(k) + ([','] + (Quote(v) + ([','] + ([')'] + rest)))))) == Some(((k, v), rest))
  {
    QuotedThenComma(k, Quote(v) + ([','] + ([')'] + rest)));
    QuotedThenComma(v, [')'] + rest);
  }

  /** The commas between struct fields are optional: a pair with no comma at all. */
  lemma EnvPairNoCommas(k: string, v: string, rest: seq<char>)
    ensures ParseEnvPair(['('] + (Quote(k) + (Quote(v) + ([')'] + rest)))) == Some(((k, v), rest))
  {
    QuotedThenQuoted(k, v, [')'] + rest);
    QuotedThenClose(v, rest);
  }

  /** How the pair of the `parse_pair` vector prints. */
  lemma PairVectorText(k: string, v: string)
    requires Plain(k) && Plain(v)
    ensures ShowEnvPair((k, v)) == "(\"" + k + "\",\"" + v + "\")"
  {
    var f := [Quote(k), Quote(v)];
    assert ShowStruct(f) == ['('] + (Quote(k) + ([','] + (Quote(v) + [')']))) by {
      StructThen(f, []);
      FieldsThen(f, [')']);
      assert Fields(f[1..]) == Quote(v);
    }
    assert ['('] + (Quote(k) + ([','] + (Quote(v) + [')']))) == ['(', '"'] + k + ['"', ',', '"'] + v + ['"', ')'] by {
      QuotePlain(k);
      QuotePlain(v);
    }
  }

  /** The test vector of `parse_pair`, for every key and value that need no escaping. */
  lemma PairVector(k: string, v: string, text: seq<char>)
    requires Plain(k) && Plain(v)
    requires text == "(\"" + k + "\",\"" + v + "\")"
    ensures ParseEnvPair(text) == Some(((k, v), []))
  {
    PairVectorText(k, v);
    EnvPairRoundTrip((k, v), []);
    assert text + [] == text;
  }

  // ---------------------------------------------------------------------------
  // Derivations

  lemma StringListRoundTrip(xs: seq<string>, rest: seq<char>)
    ensures StringList(ShowStringList(xs) + rest) == Some((xs, rest))
  {
    QuoteInverse();
    StringConsumes();
    assert RejectsAt(ParseString, ']');
    ListRoundTrip(ParseString, Quote, xs, rest);
  }

  lemma DrvOutputRoundTrip(o: DrvOutput, rest: seq<char>)
    ensures ParseDrvOutput(ShowDrvOutput(o) + rest) == Some((o, rest))
  {
    var f := [Quote(o.key), Quote(o.path), Quote(o.hashAlgo), Quote(o.hash)];
    var close := [')'] + rest;
    StructThen(f, rest);
    FieldsThen(f, close);
    FieldsThen(f[1..], close);
    FieldsThen(f[2..], close);
    assert f[1..][1..] == f[2..] && f[2..][1..] == f[3..] && Fields(f[3..]) == Quote(o.hash);
    var t2 := Quote(o.hash) + close;
    var t1 := Quote(o.hashAlgo) + ([','] + t2);
    var t0 := Quote(o.path) + ([','] + t1);
    QuotedThenComma(o.key, t0);
    QuotedThenComma(o.path, t1);
    QuotedThenComma(o.hashAlgo, t2);
    QuotedThenClose(o.hash, rest);
  }

  lemma InputDrvRoundTrip(i: InputDrv, rest: seq<char>)
    ensures ParseInputDrv(ShowInputDrv(i) + rest) == Some((i, rest))
  {
    var f := [Quote(i.path), ShowStringList(i.outputs)];
    var close := [')'] + rest;
    StructThen(f, rest);
    FieldsThen(f, close);
    assert Fields(f[1..]) == ShowStringList(i.outputs);
    QuotedThenComma(i.path, ShowStringList(i.outputs) + close);
    StringListRoundTrip(i.outputs, close);
    FieldThenClose(StringList, ShowStringList(i.outputs), i.outputs, rest);
  }

  lemma EnvPairRoundTrip(kv: (string, string), rest: seq<char>)
    ensures ParseEnvPair(ShowEnvPair(kv) + rest) == Some((kv, rest))
  {
    var f := [Quote(kv.0), Quote(kv.1)];
    StructThen(f, rest);
    FieldsThen(f, [')'] + rest);
    assert Fields(f[1..]) == Quote(kv.1);
    QuotedThenComma(kv.0, Quote(kv.1) + ([')'] + rest));
    QuotedThenClose(kv.1, rest);
  }

  lemma DrvOutputListRoundTrip(xs: seq<DrvOutput>, rest: seq<char>)
    ensures DrvOutputList(ShowList(ShowDrvOutput, xs) + rest) == Some((xs, rest))
  {
    forall o, t ensures ParseDrvOutput(ShowDrvOutput(o) + t) == Some((o, t)) {
      DrvOutputRoundTrip(o, t);
    }
    ElementParsersConsume();
    assert RejectsAt(ParseDrvOutput, ']');
    ListRoundTrip(ParseDrvOutput, ShowDrvOutput, xs, rest);
  }

  lemma InputDrvListRoundTrip(xs: seq<InputDrv>, rest: seq<char>)
    ensures InputDrvList(ShowList(ShowInputDrv, xs) + rest) == Some((xs, rest))
  {
    forall i, t ensures ParseInputDrv(ShowInputDrv(i) + t) == Some((i, t)) {
      InputDrvRoundTrip(i, t);
    }
    ElementParsersConsume();
    assert RejectsAt(ParseInputDrv, ']');
    ListRoundTrip(ParseInputDrv, ShowInputDrv, xs, rest);
  }

  lemma EnvListRoundTrip(xs: seq<(string, string)>, rest: seq<char>)
    ensures EnvList(ShowList(ShowEnvPair, xs) + rest) == Some((xs, rest))
  {
    forall kv, t ensures ParseEnvPair(ShowEnvPair(kv) + t) == Some((kv, t)) {
      EnvPairRoundTrip(kv, t);
    }
    ElementParsersConsume();
    assert RejectsAt(ParseEnvPair, ']');
    ListRoundTrip(ParseEnvPair, ShowEnvPair, xs, rest);
  }

  /** Seven printed fields, then what follows them, as one right-nested concatenation. */
  lemma SevenFields(f: seq<seq<char>>, rest: seq<char>)
    requires |f| == 7
    ensures Fields(f) + rest
         == f[0] + ([','] + (f[1] + ([','] + (f[2] + ([','] + (f[3] + ([','] + (f[4] + ([','] + (f[5] + ([','] + (f[6] + rest))))))))))))
  {
    FieldsThen(f, rest);
    FieldsThen(f[1..], rest);
    FieldsThen(f[2..], rest);
    FieldsThen(f[3..], rest);
    FieldsThen(f[4..], rest);
    FieldsThen(f[5..], rest);
    assert f[1..][1..] == f[2..];
    assert f[2..][1..] == f[3..];
    assert f[3..][1..] == f[4..];
    assert f[4..][1..] == f[5..];
    assert f[5..][1..] == f[6..];
    assert Fields(f[6..]) == f[6];
  }

  /** `drv` parses a printed derivation back to itself and leaves what follows it. */
  lemma DrvRoundTrip(d: Drv, rest: seq<char>)
    ensures ParseDrv(ShowDrv(d) + rest) == Some((d, rest))
  {
    var f := [
      ShowList(ShowDrvOutput, d.outputs),
      ShowList(ShowInputDrv, d.inputDrvs),
      ShowStringList(d.inputSrcs),
      Quote(d.platform),
      Quote(d.builder),
      ShowStringList(d.builderArgs),
      ShowList(ShowEnvPair, d.env)];
    var close := [')'] + rest;
    Assoc(DeriveTag, ShowStruct(f), rest);
    StructThen(f, rest);
    SevenFields(f, close);
    var t6 := f[6] + close;
    var t5 := f[5] + ([','] + t6);
    var t4 := f[4] + ([','] + t5);
    var t3 := f[3] + ([','] + t4);
    var t2 := f[2] + ([','] + t3);
    var t1 := f[1] + ([','] + t2);
    DrvOutputListRoundTrip(d.outputs, [','] + t1);
    FieldThenComma(DrvOutputList, f[0], d.outputs, t1);
    InputDrvListRoundTrip(d.inputDrvs, [','] + t2);
    FieldThenComma(InputDrvList, f[1], d.inputDrvs, t2);
    StringListRoundTrip(d.inputSrcs, [','] + t3);
    FieldThenComma(StringList, f[2], d.inputSrcs, t3);
    QuotedThenComma(d.platform, t4);
    QuotedThenComma(d.builder, t5);
    StringListRoundTrip(d.builderArgs, [','] + t6);
    FieldThenComma(StringList, f[5], d.builderArgs, t6);
    EnvListRoundTrip(d.env, close);
    FieldThenClose(EnvList, f[6], d.env, rest);
  }

  /** How the output of the `parse_drv_output` vector prints. */
  lemma DrvOutputVectorText(path: string)
    requires Plain(path)
    ensures ShowDrvOutput(DrvOutput("out", path, "", "")) == "(\"out\",\"" + path + "\",\"\",\"\")"
  {
    var f := [Quote("out"), Quote(path), Quote(""), Quote("")];
    var tail := ['"'] + ([','] + (Quote("") + ([','] + (Quote("") + [')']))));
    var head := ['('] + Quote("out") + [',', '"'];
    assert tail == "\",\"\",\"\")" && head == "(\"out\",\"" by {
      QuotePlain("out");
    }
    assert ShowStruct(f) == ['('] + (Quote("out") + ([','] + (Quote(path) + ([','] + (Quote("") + ([','] + (Quote("") + [')']))))))) by {
      StructThen(f, []);
      FieldsThen(f, [')']);
      FieldsThen(f[1..], [')']);
      FieldsThen(f[2..], [')']);
      assert f[1..][1..] == f[2..] && f[2..][1..] == f[3..] && Fields(f[3..]) == Quote("");
    }
    assert ['('] + (Quote("out") + ([','] + (Quote(path) + ([','] + (Quote("") + ([','] + (Quote("") + [')']))))))) == head + path + tail by {
      QuotePlain(path);
    }
  }

  /**
    The test vector of `parse_drv_output`, for every store path that needs no
    escaping (the vector's own path is one).
  */
  lemma DrvOutputVector(path: string, text: seq<char>)
    requires Plain(path)
    requires text == "(\"out\",\"" + path + "\",\"\",\"\")"
    ensures ParseDrvOutput(text) == Some((DrvOutput("out", path, "", ""), []))
  {
    DrvOutputVectorText(path);
    DrvOutputRoundTrip(DrvOutput("out", path, "", ""), []);
    assert text + [] == text;
  }

  /** How the input derivation of the `parse_input_drv` vector prints. */
  lemma InputDrvVectorText(path: string)
    requires Plain(path)
    ensures ShowInputDrv(InputDrv(path, ["out"])) == "(\"" + path + "\",[\"out\"])"
  {
    var f := [Quote(path), ShowStringList(["out"])];
    var tail := ['"'] + ([','] + (ShowStringList(["out"]) + [')']));
    assert tail == "\",[\"out\"])" by {
      QuotePlain("out");
      assert ["out"][1..] == [];
      assert ShowStringList(["out"]) == "[\"out\"]";
    }
    assert ShowStruct(f) == ['('] + (Quote(path) + ([','] + (ShowStringList(["out"]) + [')']))) by {
      StructThen(f, []);
      FieldsThen(f, [')']);
      assert Fields(f[1..]) == ShowStringList(["out"]);
    }
    assert ['('] + (Quote(path) + ([','] + (ShowStringList(["out"]) + [')']))) == ['(', '"'] + path + tail by {
      QuotePlain(path);
    }
  }

  /**
    The test vector of `parse_input_drv`, for every derivation path that needs no
    escaping (the vector's own path is one).
  */
  lemma InputDrvVector(path: string, text: seq<char>)
    requires Plain(path)
    requires text == "(\"" + path + "\",[\"out\"])"
    ensures ParseInputDrv(text) == Some((InputDrv(path, ["out"]), []))
  {
    InputDrvVectorText(path);
    InputDrvRoundTrip(InputDrv(path, ["out"]), []);
    assert text + [] == text;
  }
}
