/** The symbol section of an AIGER file: names of inputs, latches, outputs, asserts and
    assumes, one a line, written and read back. */
module AigerSymbols {
  import opened Fsm
  import opened AigerText

  type Name = seq<Byte>

  datatype SymbolKind = InputSymbol | LatchSymbol | OutputSymbol | AssertSymbol | AssumeSymbol

  /** What has a name, by kind and number. */
  datatype Names = Names(
    inputs: seq<Option<Name>>,
    latches: seq<Option<Name>>,
    outputs: seq<Option<Name>>,
    asserts: seq<Option<Name>>,
    assumes: seq<Option<Name>>)
  {
    function Of(kind: SymbolKind): seq<Option<Name>> {
      match kind
      case InputSymbol => inputs
      case LatchSymbol => latches
      case OutputSymbol => outputs
      case AssertSymbol => asserts
      case AssumeSymbol => assumes
    }

    function With(kind: SymbolKind, names: seq<Option<Name>>): Names {
      match kind
      case InputSymbol => this.(inputs := names)
      case LatchSymbol => this.(latches := names)
      case OutputSymbol => this.(outputs := names)
      case AssertSymbol => this.(asserts := names)
      case AssumeSymbol => this.(assumes := names)
    }
  }

  function Unnamed(count: nat): (r: seq<Option<Name>>)
    ensures |r| == count
  {
    seq(count, _ => None)
  }

  const COMMENT: Byte := 99
  const JUSTICE: Byte := 106
  const FAIRNESS: Byte := 102

  function KindByte(kind: SymbolKind): Byte {
    match kind
    case InputSymbol => 105
    case LatchSymbol => 108
    case OutputSymbol => 111
    case AssertSymbol => 98
    case AssumeSymbol => 99
  }

  function KindOf(byte: Byte): (r: Option<SymbolKind>)
    ensures r.Some? ==> KindByte(r.value) == byte
    ensures r == None ==> forall kind :: KindByte(kind) != byte
  {
    if byte == 105 then Some(InputSymbol)
    else if byte == 108 then Some(LatchSymbol)
    else if byte == 111 then Some(OutputSymbol)
    else if byte == 98 then Some(AssertSymbol)
    else if byte == 99 then Some(AssumeSymbol)
    else None
  }

  // ----- reading -----

  /** How many bytes come before the first space. */
  function BeforeSpace(line: seq<Byte>): (n: nat)
    ensures n <= |line| && (n < |line| ==> line[n] == SPACE) && forall i :: 0 <= i < n ==> line[i] != SPACE
  {
    if line == [] || line[0] == SPACE then 0 else 1 + BeforeSpace(line[1..])
  }

  /** Names one thing. Lines without a space or without a name say nothing; an unknown kind
      or a number that does not parse or names nothing is an error. */
  function ReadSymbol(line: seq<Byte>, names: Names): Option<Names> {
    var n := BeforeSpace(line);
    if n == |line| || n + 1 == |line| then Some(names)
    else if n == 0 then None
    else
      match (ParseNumber(line[1..n]), KindOf(line[0]))
      case (None, _) => None
      case (Some(_), None) => if line[0] == JUSTICE || line[0] == FAIRNESS then Some(names) else None
      case (Some(i), Some(kind)) =>
        if i < |names.Of(kind)| then Some(names.With(kind, names.Of(kind)[i := Some(line[n + 1..])])) else None
  }

  /** The rest of the file, up to a comment. */
  function ReadSymbols(bytes: seq<Byte>, names: Names): Option<Names>
    decreases |bytes|
  {
    if bytes == [] then Some(names)
    else
      var (line, rest) := ReadLine(bytes);
      if line == [COMMENT] then Some(names)
      else
        match ReadSymbol(line, names)
        case None => None
        case Some(more) => ReadSymbols(rest, more)
  }

  // ----- writing -----

  function SymbolLine(kind: SymbolKind, i: nat, name: Name): seq<Byte> {
    [KindByte(kind)] + Decimal(i) + [SPACE] + name
  }

  /** The lines of one kind, from number `i`. */
  function SymbolLines(kind: SymbolKind, names: seq<Option<Name>>, i: nat): seq<Byte>
    requires i <= |names|
    decreases |names| - i
  {
    if i == |names| then []
    else
      (if names[i].Some? then SymbolLine(kind, i, names[i].value) + [NEWLINE] else []) + SymbolLines(kind, names, i + 1)
  }

  function SymbolBytes(names: Names): seq<Byte> {
    SymbolLines(InputSymbol, names.inputs, 0) +
    (SymbolLines(LatchSymbol, names.latches, 0) +
    (SymbolLines(OutputSymbol, names.outputs, 0) +
    (SymbolLines(AssertSymbol, names.asserts, 0) + SymbolLines(AssumeSymbol, names.assumes, 0))))
  }

  // ----- the round trip -----

  predicate Readable(name: Option<Name>) {
    name.Some? ==> name.value != [] && IsLine(name.value)
  }

  predicate AllReadable(names: Names) {
    forall kind, i :: 0 <= i < |names.Of(kind)| ==> Readable(names.Of(kind)[i])
  }

  /** Room for names, none of them given yet. */
  function Blank(names: Names): Names {
    Names(Unnamed(|names.inputs|), Unnamed(|names.latches|), Unnamed(|names.outputs|), Unnamed(|names.asserts|),
      Unnamed(|names.assumes|))
  }

  lemma {:induction false} SpaceAfter(word: seq<Byte>, rest: seq<Byte>)
    requires forall i :: 0 <= i < |word| ==> word[i] != SPACE
    ensures BeforeSpace(word + [SPACE] + rest) == |word|
  {
    var line := word + [SPACE] + rest;
    if word != [] {
      assert line[1..] == word[1..] + [SPACE] + rest;
      SpaceAfter(word[1..], rest);
    }
  }

  /** One written line names what it was written for. */
  lemma SymbolReads(kind: SymbolKind, i: nat, name: Name, names: Names)
    requires name != [] && IsLine(name) && i < |names.Of(kind)|
    ensures IsLine(SymbolLine(kind, i, name)) && SymbolLine(kind, i, name) != [COMMENT]
    ensures ReadSymbol(SymbolLine(kind, i, name), names) ==
      Some(names.With(kind, names.Of(kind)[i := Some(name)]))
  {
    var word := [KindByte(kind)] + Decimal(i);
    var line := SymbolLine(kind, i, name);
    DecimalIsWord(i);
    SpaceAfter(word, name);
    LineParts(KindByte(kind), Decimal(i), name);
    ParseDecimal(i);
    hide Decimal;
    hide ParseNumber;
    hide BeforeSpace;
  }

  lemma LineParts(kind: Byte, number: seq<Byte>, name: Name)
    ensures var line := [kind] + number + [SPACE] + name;
      && line[0] == kind && line[1..|number| + 1] == number && line[|number| + 2..] == name
  {
  }

  /** Reading one written line and the rest. */
  lemma SymbolThen(kind: SymbolKind, i: nat, name: Name, names: Names, rest: seq<Byte>)
    requires name != [] && IsLine(name) && i < |names.Of(kind)|
    ensures ReadSymbols(SymbolLine(kind, i, name) + [NEWLINE] + rest, names) ==
      ReadSymbols(rest, names.With(kind, names.Of(kind)[i := Some(name)]))
  {
    hide ReadSymbol;
    hide SymbolLine;
    SymbolReads(kind, i, name, names);
    ReadWrittenLine(SymbolLine(kind, i, name), rest);
  }

  lemma WithTwice(names: Names, kind: SymbolKind, some: seq<Option<Name>>, all: seq<Option<Name>>)
    ensures names.With(kind, some).With(kind, all) == names.With(kind, all)
    ensures names.With(kind, some).Of(kind) == some && names.With(kind, names.Of(kind)) == names
  {
  }

  /** Reading the lines of one kind names all of that kind. */
  lemma {:induction false} SymbolsOfKind(kind: SymbolKind, given: seq<Option<Name>>, i: nat, names: Names, rest: seq<Byte>)
    requires i <= |given| && forall k :: 0 <= k < |given| ==> Readable(given[k])
    requires names.Of(kind) == given[..i] + Unnamed(|given| - i)
    ensures ReadSymbols(SymbolLines(kind, given, i) + rest, names) == ReadSymbols(rest, names.With(kind, given))
    decreases |given| - i
  {
    hide ReadSymbols;
    hide SymbolLine;
    hide Names.With;
    hide Names.Of;
    var bytes := SymbolLines(kind, given, i) + rest;
    if i == |given| {
      assert bytes == rest && given[..i] + Unnamed(0) == given;
      WithTwice(names, kind, given, given);
    } else {
      var tail := SymbolLines(kind, given, i + 1) + rest;
      var next := names.Of(kind)[i := given[i]];
      var more := names.With(kind, next);
      WithTwice(names, kind, next, given);
      assert next == given[..i + 1] + Unnamed(|given| - (i + 1));
      if given[i].Some? {
        assert bytes == SymbolLine(kind, i, given[i].value) + [NEWLINE] + tail;
        SymbolThen(kind, i, given[i].value, names, tail);
      } else {
        assert bytes == tail && next == names.Of(kind);
      }
      SymbolsOfKind(kind, given, i + 1, more, rest);
    }
  }

  /** What reading names is never empty and has no newline. */
  lemma {:induction false} ReadIsReadable(bytes: seq<Byte>, names: Names)
    requires AllReadable(names)
    ensures ReadSymbols(bytes, names).Some? ==> AllReadable(ReadSymbols(bytes, names).value)
    decreases |bytes|
  {
    if bytes != [] {
      var (line, rest) := ReadLine(bytes);
      ReadLineIsLine(bytes);
      if line != [COMMENT] && ReadSymbol(line, names).Some? {
        SymbolIsReadable(line, names);
        ReadIsReadable(rest, ReadSymbol(line, names).value);
      }
    }
  }

  predicate SameSizes(a: Names, b: Names) {
    forall kind: SymbolKind :: |a.Of(kind)| == |b.Of(kind)|
  }

  lemma {:induction false} ReadKeepsSizes(bytes: seq<Byte>, names: Names)
    ensures ReadSymbols(bytes, names).Some? ==> SameSizes(names, ReadSymbols(bytes, names).value)
    decreases |bytes|
  {
    if bytes != [] {
      var (line, rest) := ReadLine(bytes);
      if line != [COMMENT] && ReadSymbol(line, names).Some? {
        SymbolKeepsSizes(line, names);
        ReadKeepsSizes(rest, ReadSymbol(line, names).value);
      }
    }
  }

  lemma SymbolKeepsSizes(line: seq<Byte>, names: Names)
    ensures ReadSymbol(line, names).Some? ==> SameSizes(names, ReadSymbol(line, names).value)
  {
    hide ParseNumber;
  }

  lemma {:induction false} ReadLineIsLine(bytes: seq<Byte>)
    ensures IsLine(ReadLine(bytes).0)
  {
    if bytes != [] && bytes[0] != NEWLINE {
      ReadLineIsLine(bytes[1..]);
    }
  }

  lemma SymbolIsReadable(line: seq<Byte>, names: Names)
    requires AllReadable(names) && IsLine(line)
    ensures ReadSymbol(line, names).Some? ==> AllReadable(ReadSymbol(line, names).value)
  {
    hide ParseNumber;
    var n := BeforeSpace(line);
    if 0 < n && n + 1 < |line| && ParseNumber(line[1..n]).Some? && KindOf(line[0]).Some? {
      var i, kind := ParseNumber(line[1..n]).value, KindOf(line[0]).value;
      if i < |names.Of(kind)| {
        NamingKeeps(names, kind, i, line[n + 1..]);
      }
    }
  }

  lemma NamingKeeps(names: Names, kind: SymbolKind, i: nat, name: Name)
    requires AllReadable(names) && i < |names.Of(kind)| && name != [] && IsLine(name)
    ensures AllReadable(names.With(kind, names.Of(kind)[i := Some(name)]))
  {
    var more := names.With(kind, names.Of(kind)[i := Some(name)]);
    forall other, k | 0 <= k < |more.Of(other)|
      ensures Readable(more.Of(other)[k])
    {
      if other == kind {
        assert k != i ==> Readable(names.Of(kind)[k]);
      } else {
        assert more.Of(other) == names.Of(other) && Readable(names.Of(other)[k]);
      }
    }
  }

  /** A written symbol section reads back exactly when no name is empty or has a newline. */
  lemma SymbolsRoundTrip(names: Names)
    ensures ReadSymbols(SymbolBytes(names), Blank(names)) == Some(names) <==> AllReadable(names)
  {
    if AllReadable(names) {
      ReadableSymbols(names);
    }
    assert AllReadable(Blank(names));
    ReadIsReadable(SymbolBytes(names), Blank(names));
  }

  lemma ReadableSymbols(names: Names)
    requires AllReadable(names)
    ensures ReadSymbols(SymbolBytes(names), Blank(names)) == Some(names)
  {
    var assumes := SymbolLines(AssumeSymbol, names.assumes, 0);
    var asserts := SymbolLines(AssertSymbol, names.asserts, 0) + assumes;
    var outputs := SymbolLines(OutputSymbol, names.outputs, 0) + asserts;
    var latches := SymbolLines(LatchSymbol, names.latches, 0) + outputs;
    var b0 := Blank(names);
    var b1 := b0.(inputs := names.inputs);
    var b2 := b1.(latches := names.latches);
    var b3 := b2.(outputs := names.outputs);
    var b4 := b3.(asserts := names.asserts);
    KindReads(InputSymbol, names, b0, latches);
    KindReads(LatchSymbol, names, b1, outputs);
    KindReads(OutputSymbol, names, b2, asserts);
    KindReads(AssertSymbol, names, b3, assumes);
    assert assumes + [] == assumes;
    KindReads(AssumeSymbol, names, b4, []);
    assert b4.(assumes := names.assumes) == names;
  }

  lemma KindReads(kind: SymbolKind, names: Names, given: Names, rest: seq<Byte>)
    requires AllReadable(names) && given.Of(kind) == Unnamed(|names.Of(kind)|)
    ensures ReadSymbols(SymbolLines(kind, names.Of(kind), 0) + rest, given) ==
      ReadSymbols(rest, given.With(kind, names.Of(kind)))
  {
    assert given.Of(kind) == names.Of(kind)[..0] + Unnamed(|names.Of(kind)| - 0);
    SymbolsOfKind(kind, names.Of(kind), 0, given, rest);
  }

  // ----- in place -----

  /** Appends the lines of one kind. */
  method WriteSymbols(kind: SymbolKind, names: seq<Option<Name>>, bytes: seq<Byte>) returns (r: seq<Byte>)
    ensures r == bytes + SymbolLines(kind, names, 0)
  {
    r := bytes;
    for i := 0 to |names|
      invariant bytes + SymbolLines(kind, names, 0) == r + SymbolLines(kind, names, i)
    {
      if names[i].Some? {
        var line := SymbolLine(kind, i, names[i].value) + [NEWLINE];
        assert r + SymbolLines(kind, names, i) == r + line + SymbolLines(kind, names, i + 1);
        r := r + line;
      } else {
        assert SymbolLines(kind, names, i) == SymbolLines(kind, names, i + 1);
      }
    }
  }

  method WriteAllSymbols(names: Names, bytes: seq<Byte>) returns (r: seq<Byte>)
    ensures r == bytes + SymbolBytes(names)
  {
    hide SymbolLines;
    r := WriteSymbols(InputSymbol, names.inputs, bytes);
    r := WriteSymbols(LatchSymbol, names.latches, r);
    r := WriteSymbols(OutputSymbol, names.outputs, r);
    r := WriteSymbols(AssertSymbol, names.asserts, r);
    r := WriteSymbols(AssumeSymbol, names.assumes, r);
    JoinedSections(bytes, SymbolLines(InputSymbol, names.inputs, 0), SymbolLines(LatchSymbol, names.latches, 0),
      SymbolLines(OutputSymbol, names.outputs, 0), SymbolLines(AssertSymbol, names.asserts, 0),
      SymbolLines(AssumeSymbol, names.assumes, 0));
  }

  lemma JoinedSections(bytes: seq<Byte>, a: seq<Byte>, b: seq<Byte>, c: seq<Byte>, d: seq<Byte>, e: seq<Byte>)
    ensures bytes + a + b + c + d + e == bytes + (a + (b + (c + (d + e))))
  {
  }

  /** Reads line by line until a comment or the end of the file. */
  method ReadSymbolLines(queue: ByteQueue, given: Names) returns (r: Option<Names>)
    modifies queue
    ensures r == ReadSymbols(old(queue.contents), given)
  {
    hide ReadSymbol;
    hide ReadLine;
    var names := given;
    while queue.contents != []
      invariant ReadSymbols(old(queue.contents), given) == ReadSymbols(queue.contents, names)
      decreases |queue.contents|
    {
      var line := queue.ReadBinaryLine();
      if line == [COMMENT] {
        break;
      }
      var more := ReadSymbol(line, names);
      if more == None {
        return None;
      }
      names := more.value;
    }
    r := Some(names);
  }
}
