/** Hardware types as text: printing, lexing by longest match, and parsing. */
module CircuitTypes {
  import Words
  import opened Fsm
  import opened CircuitLiterals

  datatype Signedness = Signless | SignedInteger | UnsignedInteger

  datatype Type =
    | Integer(width: nat, signedness: Signedness)
    | Array(size: nat, element: Type)
    | Struct(fields: seq<Field>)
    | Union(members: seq<Member>)
    | InOut(element: Type)
    | Clock
    | TypeAlias(name: string)

  datatype Field = Field(name: string, ty: Type)

  datatype Member = Member(name: string, ty: Type, offset: Option<nat>)

  const U32: nat := 0x1_0000_0000
  const U64: nat := 0x1_0000_0000_0000_0000

  // ----- characters -----

  predicate IsDigit(c: char) {
    '0' <= c <= '9'
  }

  predicate IsLetter(c: char) {
    'a' <= c <= 'z' || 'A' <= c <= 'Z'
  }

  predicate StartsIdentifier(c: char) {
    IsLetter(c) || c == '_'
  }

  predicate InIdentifier(c: char) {
    StartsIdentifier(c) || IsDigit(c) || c == '$' || c == '.'
  }

  predicate StartsSuffix(c: char) {
    IsLetter(c) || c == '$' || c == '.' || c == '_' || c == '-'
  }

  predicate InSuffix(c: char) {
    StartsSuffix(c) || IsDigit(c)
  }

  predicate IsHex(c: char) {
    IsDigit(c) || 'a' <= c <= 'f' || 'A' <= c <= 'F'
  }

  predicate IsBlank(c: char) {
    c == ' ' || c == '\t'
  }

  // ----- tokens -----

  datatype TokenKind = Identifier | TypeIdentifier | Number | Symbol | Blank

  datatype Token = Token(kind: TokenKind, text: string)

  /** How many leading characters satisfy a class. */
  function Span(s: string, inside: char -> bool): (n: nat)
    ensures n <= |s| && (forall i :: 0 <= i < n ==> inside(s[i])) && (n < |s| ==> !inside(s[n]))
  {
    if s == "" || !inside(s[0]) then 0 else 1 + Span(s[1..], inside)
  }

  /** Lengths of the longest match of each category at the start of the text. */
  function IdentifierLength(s: string): nat {
    if s != "" && StartsIdentifier(s[0]) then Span(s, InIdentifier) else 0
  }

  function TypeIdentifierLength(s: string): nat {
    if |s| < 2 || s[0] != '!' then 0
    else if IsDigit(s[1]) then 1 + Span(s[1..], IsDigit)
    else if StartsSuffix(s[1]) then 1 + Span(s[1..], InSuffix)
    else 0
  }

  function DecimalLength(s: string): nat {
    Span(s, IsDigit)
  }

  function HexLength(s: string): nat {
    if |s| > 2 && s[0] == '0' && s[1] == 'x' && IsHex(s[2]) then 2 + Span(s[2..], IsHex) else 0
  }

  /** Floating-point numbers are not part of types; they only compete with integers. */
  predicate FloatHere(s: string) {
    0 < DecimalLength(s) < |s| && s[DecimalLength(s)] == '.'
  }

  predicate IsSymbol(c: char) {
    c == ':' || c == ',' || c == '<' || c == '>'
  }

  /** The category with the longest match. */
  function NextToken(s: string): (r: Option<(TokenKind, nat)>)
    ensures r.Some? ==> 0 < r.value.1 <= |s|
  {
    if IdentifierLength(s) > 0 then Some((Identifier, IdentifierLength(s)))
    else if TypeIdentifierLength(s) > 0 then Some((TypeIdentifier, TypeIdentifierLength(s)))
    else if FloatHere(s) then None
    else if Words.Maximum(DecimalLength(s), HexLength(s)) > 0 then Some((Number, Words.Maximum(DecimalLength(s), HexLength(s))))
    else if s != "" && IsSymbol(s[0]) then Some((Symbol, 1))
    else if Span(s, IsBlank) > 0 then Some((Blank, Span(s, IsBlank)))
    else None
  }

  /** The tokens of the text, without blanks. */
  function Lex(s: string): Option<seq<Token>>
    decreases |s|
  {
    if s == "" then Some([])
    else
      match NextToken(s)
      case None => None
      case Some((kind, n)) =>
        match Lex(s[n..])
        case None => None
        case Some(rest) => Some(if kind == Blank then rest else [Token(kind, s[..n])] + rest)
  }

  // ----- printing -----

  function DecimalText(n: nat): (r: string)
    ensures r != "" && (forall i :: 0 <= i < |r| ==> IsDigit(r[i])) && (n > 0 ==> r[0] != '0')
  {
    if n < 10 then [('0' as int + n) as char] else DecimalText(n / 10) + [('0' as int + n % 10) as char]
  }

  function IntegerPrefix(signedness: Signedness): string {
    match signedness
    case Signless => "i"
    case SignedInteger => "si"
    case UnsignedInteger => "ui"
  }

  function Named(name: string, abbreviated: bool): string {
    if abbreviated then name else "!hw." + name
  }

  /** Elements of arrays are printed without the dialect prefix. */
  function Assembly(t: Type, abbreviated: bool): string
    decreases t
  {
    match t
    case Integer(width, signedness) => IntegerPrefix(signedness) + DecimalText(width)
    case Array(size, element) =>
      Named("array", abbreviated) + "<" + DecimalText(size) + "x" + Assembly(element, true) + ">"
    case Struct(fields) => Named("struct", abbreviated) + "<" + FieldsText(fields) + ">"
    case Union(members) => Named("union", abbreviated) + "<" + MembersText(members) + ">"
    case InOut(element) => Named("inout", abbreviated) + "<" + Assembly(element, false) + ">"
    case Clock => "!seq.clock"
    case TypeAlias(name) => name
  }

  function FieldsText(fields: seq<Field>): string
    decreases fields
  {
    if fields == [] then ""
    else
      fields[0].name + ": " + Assembly(fields[0].ty, false) +
      if |fields| == 1 then "" else ", " + FieldsText(fields[1..])
  }

  function OffsetText(offset: Option<nat>): string {
    match offset
    case None => ""
    case Some(n) => " offset " + DecimalText(n)
  }

  function MembersText(members: seq<Member>): string
    decreases members
  {
    if members == [] then ""
    else
      members[0].name + ": " + Assembly(members[0].ty, false) + OffsetText(members[0].offset) +
      if |members| == 1 then "" else ", " + MembersText(members[1..])
  }

  // ----- which trees can be printed -----

  predicate IsIdentifier(s: string) {
    s != "" && StartsIdentifier(s[0]) && forall i :: 0 <= i < |s| ==> InIdentifier(s[i])
  }

  /** A type identifier without dots. */
  predicate IsAlias(s: string) {
    && |s| > 1 && s[0] == '!'
    && (forall i :: 0 <= i < |s| ==> s[i] != '.')
    && ((forall i :: 1 <= i < |s| ==> IsDigit(s[i]))
        || (StartsSuffix(s[1]) && forall i :: 1 <= i < |s| ==> InSuffix(s[i])))
  }

  /** Trees whose names, widths, sizes and offsets have a spelling. */
  predicate Printable(t: Type)
    decreases t
  {
    match t
    case Integer(width, _) => 0 < width < U32
    case Array(size, element) => size < U64 && Printable(element)
    case Struct(fields) => forall i :: 0 <= i < |fields| ==> IsIdentifier(fields[i].name) && Printable(fields[i].ty)
    case Union(members) =>
      forall i :: 0 <= i < |members| ==>
        IsIdentifier(members[i].name) && Printable(members[i].ty)
        && (members[i].offset.Some? ==> members[i].offset.value < U64)
    case InOut(element) => Printable(element)
    case Clock => true
    case TypeAlias(name) => IsAlias(name)
  }

  /** Somewhere inside the type an array of size zero has array elements: its text `0xarray`
      starts with the hexadecimal number `0xa`. */
  predicate HasEmptyArrayOfArrays(t: Type)
    decreases t
  {
    match t
    case Array(size, element) => (size == 0 && element.Array?) || HasEmptyArrayOfArrays(element)
    case Struct(fields) => exists i :: 0 <= i < |fields| && HasEmptyArrayOfArrays(fields[i].ty)
    case Union(members) => exists i :: 0 <= i < |members| && HasEmptyArrayOfArrays(members[i].ty)
    case InOut(element) => HasEmptyArrayOfArrays(element)
    case _ => false
  }

  predicate ValidType(t: Type) {
    Printable(t) && !HasEmptyArrayOfArrays(t)
  }

  // ----- the tokens of a printed type -----

  const OPEN := Token(Symbol, "<")
  const CLOSE := Token(Symbol, ">")
  const COMMA := Token(Symbol, ",")
  const COLON := Token(Symbol, ":")

  function NameToken(name: string, abbreviated: bool): Token {
    if abbreviated then Token(Identifier, name) else Token(TypeIdentifier, "!hw." + name)
  }

  /** The separator after an array size joins an identifier that follows it. */
  function Fused(tokens: seq<Token>): (r: seq<Token>)
  {
    if tokens != [] && tokens[0].kind == Identifier then [Token(Identifier, "x" + tokens[0].text)] + tokens[1..]
    else [Token(Identifier, "x")] + tokens
  }

  function TypeTokens(t: Type, abbreviated: bool): (r: seq<Token>)
    ensures r != []
    decreases t
  {
    match t
    case Integer(width, signedness) => [Token(Identifier, IntegerPrefix(signedness) + DecimalText(width))]
    case Array(size, element) =>
      [NameToken("array", abbreviated), OPEN, Token(Number, DecimalText(size))] + (Fused(TypeTokens(element, true)) + [CLOSE])
    case Struct(fields) => [NameToken("struct", abbreviated), OPEN] + (FieldTokens(fields) + [CLOSE])
    case Union(members) => [NameToken("union", abbreviated), OPEN] + (MemberTokens(members) + [CLOSE])
    case InOut(element) => [NameToken("inout", abbreviated), OPEN] + (TypeTokens(element, false) + [CLOSE])
    case Clock => [Token(TypeIdentifier, "!seq.clock")]
    case TypeAlias(name) => [Token(TypeIdentifier, name)]
  }

  function FieldTokens(fields: seq<Field>): seq<Token>
    decreases fields
  {
    if fields == [] then []
    else
      [Token(Identifier, fields[0].name), COLON] + (TypeTokens(fields[0].ty, false) +
      if |fields| == 1 then [] else [COMMA] + FieldTokens(fields[1..]))
  }

  function OffsetTokens(offset: Option<nat>): seq<Token> {
    match offset
    case None => []
    case Some(n) => [Token(Identifier, "offset"), Token(Number, DecimalText(n))]
  }

  function MemberTokens(members: seq<Member>): seq<Token>
    decreases members
  {
    if members == [] then []
    else
      [Token(Identifier, members[0].name), COLON] + (TypeTokens(members[0].ty, false) +
      (OffsetTokens(members[0].offset) + if |members| == 1 then [] else [COMMA] + MemberTokens(members[1..])))
  }

  // ----- lexing what was printed -----

  /** Text that ends any token before it. */
  predicate Delimits(rest: string) {
    rest == "" || rest[0] == '>' || rest[0] == ',' || rest[0] == ' '
  }

  function Before(tokens: seq<Token>, rest: Option<seq<Token>>): Option<seq<Token>> {
    match rest
    case None => None
    case Some(more) => Some(tokens + more)
  }

  lemma {:induction false} SpanOf(text: string, rest: string, inside: char -> bool)
    requires forall i :: 0 <= i < |text| ==> inside(text[i])
    requires rest == "" || !inside(rest[0])
    ensures Span(text + rest, inside) == |text|
  {
    if text == "" {
      assert text + rest == rest;
    } else {
      assert (text + rest)[1..] == text[1..] + rest;
      SpanOf(text[1..], rest, inside);
    }
  }

  /** One token followed by text that does not continue it. */
  lemma LexOne(text: string, kind: TokenKind, rest: string)
    requires text != "" && NextToken(text + rest) == Some((kind, |text|))
    ensures Lex(text + rest) == Before(if kind == Blank then [] else [Token(kind, text)], Lex(rest))
  {
    hide NextToken;
    var s := text + rest;
    assert s[..|text|] == text && s[|text|..] == rest;
    if Lex(rest).Some? {
      assert [] + Lex(rest).value == Lex(rest).value;
    }
  }

  lemma LexIdentifier(text: string, rest: string)
    requires IsIdentifier(text) && (rest == "" || !InIdentifier(rest[0]))
    ensures Lex(text + rest) == Before([Token(Identifier, text)], Lex(rest))
  {
    hide Lex;
    hide Span;
    SpanOf(text, rest, InIdentifier);
    assert (text + rest)[0] == text[0];
    LexOne(text, Identifier, rest);
  }

  lemma LexTypeIdentifier(text: string, rest: string)
    requires |text| > 1 && text[0] == '!' && StartsSuffix(text[1]) && forall i :: 1 <= i < |text| ==> InSuffix(text[i])
    requires rest == "" || !InSuffix(rest[0])
    ensures Lex(text + rest) == Before([Token(TypeIdentifier, text)], Lex(rest))
  {
    hide Lex;
    hide Span;
    SpanOf(text[1..], rest, InSuffix);
    var s := text + rest;
    assert s[0] == '!' && s[1] == text[1] && s[1..] == text[1..] + rest;
    assert IdentifierLength(s) == 0 && TypeIdentifierLength(s) == |text|;
    LexOne(text, TypeIdentifier, rest);
  }

  lemma LexAlias(text: string, rest: string)
    requires IsAlias(text) && Delimits(rest)
    ensures Lex(text + rest) == Before([Token(TypeIdentifier, text)], Lex(rest))
  {
    hide Lex;
    hide Span;
    if IsDigit(text[1]) && forall i :: 1 <= i < |text| ==> IsDigit(text[i]) {
      SpanOf(text[1..], rest, IsDigit);
      var s := text + rest;
      assert s[0] == '!' && s[1] == text[1] && s[1..] == text[1..] + rest;
      LexOne(text, TypeIdentifier, rest);
    } else {
      LexTypeIdentifier(text, rest);
    }
  }

  lemma LexNumber(n: nat, rest: string)
    requires rest == "" || (!IsDigit(rest[0]) && rest[0] != '.')
    requires n == 0 && rest != "" && rest[0] == 'x' ==> |rest| > 1 && !IsHex(rest[1])
    ensures Lex(DecimalText(n) + rest) == Before([Token(Number, DecimalText(n))], Lex(rest))
  {
    var text := DecimalText(n);
    var s := text + rest;
    SpanOf(text, rest, IsDigit);
    assert s[0] == text[0] && IsDigit(s[0]);
    assert DecimalLength(s) == |text|;
    assert |text| < |s| ==> s[|text|] == rest[0];
    assert HexLength(s) == 0 by {
      if n == 0 {
        assert text == "0";
        assert |s| > 1 ==> s[1] == rest[0];
        assert |s| > 2 ==> s[2] == rest[1];
      }
    }
    assert IdentifierLength(s) == 0 && TypeIdentifierLength(s) == 0;
    LexOne(text, Number, rest);
  }

  lemma LexSymbol(c: char, rest: string)
    requires IsSymbol(c)
    ensures Lex([c] + rest) == Before([Token(Symbol, [c])], Lex(rest))
  {
    var s := [c] + rest;
    assert s[0] == c;
    assert DecimalLength(s) == 0 && HexLength(s) == 0;
    LexOne([c], Symbol, rest);
  }

  lemma LexSpace(rest: string)
    requires rest != "" && !IsBlank(rest[0])
    ensures Lex(" " + rest) == Lex(rest)
  {
    SpanOf(" ", rest, IsBlank);
    var s := " " + rest;
    assert s[0] == ' ';
    assert DecimalLength(s) == 0 && HexLength(s) == 0;
    LexOne(" ", Blank, rest);
    if Lex(rest).Some? {
      assert [] + Lex(rest).value == Lex(rest).value;
    }
  }

  /** The separator joins a following identifier, and stands alone before anything else. */
  lemma LexSeparator(s: string)
    requires s != "" && (StartsIdentifier(s[0]) || s[0] == '!')
    ensures Lex("x" + s) == match Lex(s)
      case None => None
      case Some(tokens) => Some(Fused(tokens))
  {
    hide Lex;
    hide Span;
    if StartsIdentifier(s[0]) {
      var n := Span(s, InIdentifier);
      var text, rest := "x" + s[..n], s[n..];
      assert "x" + s == text + rest;
      assert IsIdentifier(text);
      LexIdentifier(text, rest);
      assert s == s[..n] + rest;
      LexIdentifier(s[..n], rest);
      var token := Token(Identifier, s[..n]);
      FusedBefore([token], Lex(rest));
      assert Fused([token]) == [Token(Identifier, text)];
    } else {
      LexIdentifier("x", s);
      if Lex(s).Some? {
        TypeIdentifierFirst(s);
      }
    }
  }

  lemma TypeIdentifierFirst(s: string)
    requires s != "" && s[0] == '!' && Lex(s).Some?
    ensures Lex(s).value != [] && Lex(s).value[0].kind == TypeIdentifier
  {
    assert IdentifierLength(s) == 0 && DecimalLength(s) == 0 && HexLength(s) == 0 && Span(s, IsBlank) == 0;
  }

  lemma PrefixIsIdentifier(width: nat, signedness: Signedness)
    ensures IsIdentifier(IntegerPrefix(signedness) + DecimalText(width))
  {
  }

  lemma BeforeTwice(a: seq<Token>, b: seq<Token>, rest: Option<seq<Token>>)
    ensures Before(a, Before(b, rest)) == Before(a + b, rest)
  {
    if rest.Some? {
      assert a + (b + rest.value) == a + b + rest.value;
    }
  }

  /** The name of an aggregate and its opening bracket. */
  lemma LexName(name: string, abbreviated: bool, rest: string)
    requires name == "array" || name == "struct" || name == "union" || name == "inout"
    ensures Lex(Named(name, abbreviated) + "<" + rest) == Before([NameToken(name, abbreviated), OPEN], Lex(rest))
  {
    var text, tail := Named(name, abbreviated), "<" + rest;
    assert text + "<" + rest == text + tail;
    if abbreviated {
      LexIdentifier(text, tail);
    } else {
      LexTypeIdentifier(text, tail);
    }
    LexSymbol('<', rest);
    BeforeTwice([NameToken(name, abbreviated)], [OPEN], Lex(rest));
    assert [NameToken(name, abbreviated)] + [OPEN] == [NameToken(name, abbreviated), OPEN];
  }

  lemma LexClose(tokens: seq<Token>, rest: string)
    ensures Before(tokens, Lex(">" + rest)) == Before(tokens + [CLOSE], Lex(rest))
  {
    LexSymbol('>', rest);
    BeforeTwice(tokens, [CLOSE], Lex(rest));
  }

  /** Printing then lexing gives the expected tokens. */
  lemma {:induction false} LexPrinted(t: Type, abbreviated: bool, rest: string)
    requires ValidType(t) && Delimits(rest)
    ensures Lex(Assembly(t, abbreviated) + rest) == Before(TypeTokens(t, abbreviated), Lex(rest))
    decreases t, 1
  {
    hide Lex;
    match t {
      case Integer(width, signedness) =>
        PrefixIsIdentifier(width, signedness);
        LexIdentifier(IntegerPrefix(signedness) + DecimalText(width), rest);
      case Array(_, _) => LexArray(t, abbreviated, rest);
      case Struct(_) => LexStruct(t, abbreviated, rest);
      case Union(_) => LexUnion(t, abbreviated, rest);
      case InOut(_) => LexInOut(t, abbreviated, rest);
      case Clock => LexTypeIdentifier("!seq.clock", rest);
      case TypeAlias(name) => LexAlias(name, rest);
    }
  }

  /** A name, what is between the brackets, and the closing bracket. */
  lemma LexBracketed(name: string, abbreviated: bool, inner: string, tokens: seq<Token>, rest: string)
    requires name == "array" || name == "struct" || name == "union" || name == "inout"
    requires Lex(inner + (">" + rest)) == Before(tokens, Lex(">" + rest))
    ensures Lex(Named(name, abbreviated) + "<" + inner + ">" + rest) ==
      Before([NameToken(name, abbreviated), OPEN] + (tokens + [CLOSE]), Lex(rest))
  {
    hide Lex;
    hide Named;
    hide NameToken;
    var tail := inner + (">" + rest);
    assert Named(name, abbreviated) + "<" + inner + ">" + rest == Named(name, abbreviated) + "<" + tail;
    LexName(name, abbreviated, tail);
    LexClose(tokens, rest);
    BeforeTwice([NameToken(name, abbreviated), OPEN], tokens + [CLOSE], Lex(rest));
  }

  lemma {:induction false} LexStruct(t: Type, abbreviated: bool, rest: string)
    requires t.Struct? && ValidType(t) && Delimits(rest)
    ensures Lex(Assembly(t, abbreviated) + rest) == Before(TypeTokens(t, abbreviated), Lex(rest))
    decreases t, 0
  {
    hide Lex;
    LexFields(t.fields, ">" + rest);
    LexBracketed("struct", abbreviated, FieldsText(t.fields), FieldTokens(t.fields), rest);
  }

  lemma {:induction false} LexUnion(t: Type, abbreviated: bool, rest: string)
    requires t.Union? && ValidType(t) && Delimits(rest)
    ensures Lex(Assembly(t, abbreviated) + rest) == Before(TypeTokens(t, abbreviated), Lex(rest))
    decreases t, 0
  {
    hide Lex;
    LexMembers(t.members, ">" + rest);
    LexBracketed("union", abbreviated, MembersText(t.members), MemberTokens(t.members), rest);
  }

  lemma {:induction false} LexInOut(t: Type, abbreviated: bool, rest: string)
    requires t.InOut? && ValidType(t) && Delimits(rest)
    ensures Lex(Assembly(t, abbreviated) + rest) == Before(TypeTokens(t, abbreviated), Lex(rest))
    decreases t, 0
  {
    hide Lex;
    LexPrinted(t.element, false, ">" + rest);
    LexBracketed("inout", abbreviated, Assembly(t.element, false), TypeTokens(t.element, false), rest);
  }

  lemma ArraySplit(t: Type, abbreviated: bool, rest: string)
    requires t.Array?
    ensures Assembly(t, abbreviated) + rest ==
      Named("array", abbreviated) + "<" + (DecimalText(t.size) + ("x" + (Assembly(t.element, true) + (">" + rest))))
  {
    hide Named;
    hide DecimalText;
  }

  /** The size, the separator and the element fuse into fewer tokens. */
  lemma {:induction false} LexArray(t: Type, abbreviated: bool, rest: string)
    requires t.Array? && ValidType(t) && Delimits(rest)
    ensures Lex(Assembly(t, abbreviated) + rest) == Before(TypeTokens(t, abbreviated), Lex(rest))
    decreases t, 0
  {
    hide Lex;
    var size, element := t.size, t.element;
    var close := ">" + rest;
    var printed := Assembly(element, true) + close;
    var tail := DecimalText(size) + ("x" + printed);
    ArraySplit(t, abbreviated, rest);
    assert (size == 0 ==> !element.Array?) && ValidType(element);
    hide Assembly;
    hide HasEmptyArrayOfArrays;
    hide Named;
    hide DecimalText;
    LexName("array", abbreviated, tail);
    AssemblyStarts(element, close);
    assert ("x" + printed)[1] == printed[0];
    LexNumber(size, "x" + printed);
    LexSeparator(printed);
    LexPrinted(element, true, close);
    FusedBefore(TypeTokens(element, true), Lex(close));
    LexClose(Fused(TypeTokens(element, true)), rest);
    var number := [Token(Number, DecimalText(size))];
    var fused := Fused(TypeTokens(element, true)) + [CLOSE];
    BeforeTwice(number, fused, Lex(rest));
    BeforeTwice([NameToken("array", abbreviated), OPEN], number + fused, Lex(rest));
    assert [NameToken("array", abbreviated), OPEN] + (number + fused) == TypeTokens(t, abbreviated);
  }

  lemma FusedBefore(tokens: seq<Token>, rest: Option<seq<Token>>)
    requires tokens != []
    ensures Before(tokens, rest).Some? ==> Some(Fused(Before(tokens, rest).value)) == Before(Fused(tokens), rest)
    ensures Before(tokens, rest) == None ==> Before(Fused(tokens), rest) == None
  {
    if rest.Some? {
      var all := tokens + rest.value;
      assert all[0] == tokens[0] && all[1..] == tokens[1..] + rest.value;
      if tokens[0].kind == Identifier {
        var joined := [Token(Identifier, "x" + tokens[0].text)];
        assert joined + (tokens[1..] + rest.value) == joined + tokens[1..] + rest.value;
      } else {
        var separator := [Token(Identifier, "x")];
        assert separator + (tokens + rest.value) == separator + tokens + rest.value;
      }
    }
  }

  lemma AssemblyStarts(t: Type, rest: string)
    requires Printable(t)
    ensures var s := Assembly(t, true) + rest;
      s != "" && (StartsIdentifier(s[0]) || s[0] == '!') && (!t.Array? ==> !IsHex(s[0]))
  {
  }

  lemma Associates<T>(a: seq<T>, b: seq<T>, c: seq<T>)
    ensures a + b + c == a + (b + c)
  {
  }

  lemma NothingAfter<T>(a: seq<T>)
    ensures a + [] == a
  {
  }

  lemma FieldsSplit(fields: seq<Field>, rest: string)
    requires fields != []
    ensures |fields| == 1 ==>
      FieldsText(fields) + rest == fields[0].name + ": " + Assembly(fields[0].ty, false) + rest
    ensures |fields| == 1 ==>
      FieldTokens(fields) == [Token(Identifier, fields[0].name), COLON] + TypeTokens(fields[0].ty, false)
    ensures |fields| > 1 ==>
      FieldsText(fields) + rest ==
        fields[0].name + ": " + Assembly(fields[0].ty, false) + (", " + (FieldsText(fields[1..]) + rest))
    ensures |fields| > 1 ==>
      FieldTokens(fields) ==
        [Token(Identifier, fields[0].name), COLON] + TypeTokens(fields[0].ty, false) +
        ([COMMA] + FieldTokens(fields[1..]))
  {
    hide Assembly;
    hide TypeTokens;
    var head := fields[0].name + ": " + Assembly(fields[0].ty, false);
    var tokens := [Token(Identifier, fields[0].name), COLON];
    if |fields| == 1 {
      NothingAfter(head);
      NothingAfter(TypeTokens(fields[0].ty, false));
    } else {
      var more := FieldsText(fields[1..]);
      Associates(head, ", " + more, rest);
      Associates(", ", more, rest);
      Associates(tokens, TypeTokens(fields[0].ty, false), [COMMA] + FieldTokens(fields[1..]));
    }
  }

  lemma {:induction false} LexFields(fields: seq<Field>, rest: string)
    requires (forall i :: 0 <= i < |fields| ==> IsIdentifier(fields[i].name) && ValidType(fields[i].ty))
    requires rest != "" && rest[0] == '>'
    ensures Lex(FieldsText(fields) + rest) == Before(FieldTokens(fields), Lex(rest))
    decreases fields, 0
  {
    hide Lex;
    hide Assembly;
    hide TypeTokens;
    hide IsIdentifier;
    hide ValidType;
    if fields == [] {
      assert FieldsText(fields) + rest == rest;
      BeforeNothing(Lex(rest));
    } else {
      FieldsSplit(fields, rest);
      hide FieldsText;
      hide FieldTokens;
      var name, ty := fields[0].name, fields[0].ty;
      if |fields| == 1 {
        LexLabelled(name, ty, rest);
      } else {
        var more := FieldsText(fields[1..]) + rest;
        LexLabelled(name, ty, ", " + more);
        FieldsStart(fields[1..], rest);
        LexComma(more);
        LexFields(fields[1..], rest);
        BeforeTwice([COMMA], FieldTokens(fields[1..]), Lex(rest));
        BeforeTwice([Token(Identifier, name), COLON] + TypeTokens(ty, false), [COMMA] + FieldTokens(fields[1..]), Lex(rest));
      }
    }
  }

  lemma BeforeNothing(rest: Option<seq<Token>>)
    ensures Before([], rest) == rest
  {
    if rest.Some? {
      assert [] + rest.value == rest.value;
    }
  }

  lemma FieldsStart(fields: seq<Field>, rest: string)
    requires fields != [] && IsIdentifier(fields[0].name)
    ensures var s := FieldsText(fields) + rest;
      s != "" && StartsIdentifier(s[0])
  {
  }

  lemma MembersStart(members: seq<Member>, rest: string)
    requires members != [] && IsIdentifier(members[0].name)
    ensures var s := MembersText(members) + rest;
      s != "" && StartsIdentifier(s[0])
  {
  }

  lemma LexComma(rest: string)
    requires rest != "" && StartsIdentifier(rest[0])
    ensures Lex(", " + rest) == Before([COMMA], Lex(rest))
  {
    assert ", " + rest == [','] + (" " + rest);
    LexSymbol(',', " " + rest);
    LexSpace(rest);
  }

  /** A name and a colon before any text that starts with no blank. */
  lemma LexLabel(name: string, printed: string)
    requires IsIdentifier(name) && printed != "" && !IsBlank(printed[0])
    ensures Lex(name + ([':'] + (" " + printed))) == Before([Token(Identifier, name), COLON], Lex(printed))
  {
    hide Lex;
    LexIdentifier(name, [':'] + (" " + printed));
    LexSymbol(':', " " + printed);
    LexSpace(printed);
    BeforeTwice([Token(Identifier, name)], [COLON], Lex(printed));
    assert [Token(Identifier, name)] + [COLON] == [Token(Identifier, name), COLON];
  }

  /** A name, a colon and a type. */
  lemma {:induction false} LexLabelled(name: string, ty: Type, rest: string)
    requires IsIdentifier(name) && ValidType(ty) && Delimits(rest)
    ensures Lex(name + ": " + Assembly(ty, false) + rest) ==
      Before([Token(Identifier, name), COLON] + TypeTokens(ty, false), Lex(rest))
    decreases ty, 2
  {
    hide Lex;
    var printed := Assembly(ty, false) + rest;
    assert name + ": " + Assembly(ty, false) + rest == name + ([':'] + (" " + printed));
    PlainAssemblyStarts(ty, rest);
    LexLabel(name, printed);
    LexPrinted(ty, false, rest);
    BeforeTwice([Token(Identifier, name), COLON], TypeTokens(ty, false), Lex(rest));
  }

  lemma PlainAssemblyStarts(t: Type, rest: string)
    requires Printable(t)
    ensures var s := Assembly(t, false) + rest;
      s != "" && !IsBlank(s[0])
  {
  }

  lemma MembersSplit(members: seq<Member>, rest: string)
    requires members != []
    ensures |members| == 1 ==>
      MembersText(members) + rest ==
        members[0].name + ": " + Assembly(members[0].ty, false) + (OffsetText(members[0].offset) + rest)
    ensures |members| == 1 ==>
      MemberTokens(members) ==
        [Token(Identifier, members[0].name), COLON] + TypeTokens(members[0].ty, false) + OffsetTokens(members[0].offset)
    ensures |members| > 1 ==>
      MembersText(members) + rest ==
        members[0].name + ": " + Assembly(members[0].ty, false) +
        (OffsetText(members[0].offset) + (", " + (MembersText(members[1..]) + rest)))
    ensures |members| > 1 ==>
      MemberTokens(members) ==
        [Token(Identifier, members[0].name), COLON] + TypeTokens(members[0].ty, false) +
        (OffsetTokens(members[0].offset) + ([COMMA] + MemberTokens(members[1..])))
  {
    hide Assembly;
    hide TypeTokens;
    hide OffsetText;
    hide OffsetTokens;
    var head := members[0].name + ": " + Assembly(members[0].ty, false);
    var offset := OffsetText(members[0].offset);
    var tokens := [Token(Identifier, members[0].name), COLON];
    if |members| == 1 {
      NothingAfter(head + offset);
      NothingAfter(OffsetTokens(members[0].offset));
      Associates(head, offset, rest);
      Associates(tokens, TypeTokens(members[0].ty, false), OffsetTokens(members[0].offset));
    } else {
      var more := MembersText(members[1..]);
      Associates(head + offset, ", " + more, rest);
      Associates(head, offset, (", " + more) + rest);
      Associates(", ", more, rest);
      Associates(tokens, TypeTokens(members[0].ty, false),
        OffsetTokens(members[0].offset) + ([COMMA] + MemberTokens(members[1..])));
    }
  }

  lemma {:induction false} LexMembers(members: seq<Member>, rest: string)
    requires (forall i :: 0 <= i < |members| ==> IsIdentifier(members[i].name) && ValidType(members[i].ty))
    requires rest != "" && rest[0] == '>'
    ensures Lex(MembersText(members) + rest) == Before(MemberTokens(members), Lex(rest))
    decreases members, 0
  {
    hide Lex;
    hide Assembly;
    hide TypeTokens;
    hide IsIdentifier;
    hide ValidType;
    if members == [] {
      assert MembersText(members) + rest == rest;
      BeforeNothing(Lex(rest));
    } else {
      MembersSplit(members, rest);
      hide MembersText;
      hide MemberTokens;
      hide OffsetText;
      hide OffsetTokens;
      var name, ty, offset := members[0].name, members[0].ty, members[0].offset;
      var head := [Token(Identifier, name), COLON] + TypeTokens(ty, false);
      if |members| == 1 {
        OffsetDelimits(offset, rest);
        LexLabelled(name, ty, OffsetText(offset) + rest);
        LexOffset(offset, rest);
        BeforeTwice(head, OffsetTokens(offset), Lex(rest));
      } else {
        var more := MembersText(members[1..]) + rest;
        var tail := [COMMA] + MemberTokens(members[1..]);
        OffsetDelimits(offset, ", " + more);
        LexLabelled(name, ty, OffsetText(offset) + (", " + more));
        LexOffset(offset, ", " + more);
        MembersStart(members[1..], rest);
        LexComma(more);
        LexMembers(members[1..], rest);
        BeforeTwice([COMMA], MemberTokens(members[1..]), Lex(rest));
        BeforeTwice(OffsetTokens(offset), tail, Lex(rest));
        BeforeTwice(head, OffsetTokens(offset) + tail, Lex(rest));
      }
    }
  }

  lemma OffsetDelimits(offset: Option<nat>, rest: string)
    requires Delimits(rest)
    ensures Delimits(OffsetText(offset) + rest)
  {
  }

  lemma LexOffset(offset: Option<nat>, rest: string)
    requires rest != "" && (rest[0] == '>' || rest[0] == ',')
    ensures Lex(OffsetText(offset) + rest) == Before(OffsetTokens(offset), Lex(rest))
  {
    match offset {
      case None =>
        assert OffsetText(offset) + rest == rest;
        BeforeNothing(Lex(rest));
      case Some(n) =>
        hide Lex;
        var number := DecimalText(n) + rest;
        assert OffsetText(offset) + rest == " " + ("offset" + (" " + number));
        assert IsIdentifier("offset");
        hide IsIdentifier;
        hide DecimalText;
        LexSpace("offset" + (" " + number));
        LexIdentifier("offset", " " + number);
        LexSpace(number);
        LexNumber(n, rest);
        BeforeTwice([Token(Identifier, "offset")], [Token(Number, DecimalText(n))], Lex(rest));
        assert [Token(Identifier, "offset")] + [Token(Number, DecimalText(n))] == OffsetTokens(offset);
    }
  }

  // ----- parsing -----

  /** The type of an integer token: letters and a width within 32 bits. */
  function IntegerWidth(text: string, signedness: Signedness): Option<Type> {
    var digits := if |text| >= |IntegerPrefix(signedness)| then text[|IntegerPrefix(signedness)|..] else "";
    match NumberOf(digits, 10)
    case None => None
    case Some(width) => if 0 < width < U32 then Some(Integer(width, signedness)) else None
  }

  predicate HasPrefix(text: string, prefix: string) {
    |text| >= |prefix| && text[..|prefix|] == prefix
  }

  predicate AllDigits(text: string) {
    text != "" && forall i :: 0 <= i < |text| ==> IsDigit(text[i])
  }

  /** Signed, unsigned and signless spellings, in the order they are tried. */
  function SignednessOf(text: string): Option<Signedness> {
    if HasPrefix(text, "si") then (if AllDigits(text[2..]) then Some(SignedInteger) else None)
    else if HasPrefix(text, "ui") then (if AllDigits(text[2..]) then Some(UnsignedInteger) else None)
    else if HasPrefix(text, "i") then (if AllDigits(text[1..]) then Some(Signless) else None)
    else None
  }

  predicate IsNamed(token: Token, name: string, abbreviated: bool) {
    token.text == "!hw." + name || (abbreviated && token.text == name)
  }

  function Unsigned(tokens: seq<Token>): Option<(nat, seq<Token>)> {
    if tokens == [] || tokens[0].kind != Number then None
    else
      match NumberOf(tokens[0].text, 10)
      case None => None
      case Some(n) => if n < U64 then Some((n, tokens[1..])) else None
  }

  predicate At(tokens: seq<Token>, text: string) {
    tokens != [] && tokens[0].text == text
  }

  /** Splits the separator off the token after an array size. */
  function SplitSeparator(tokens: seq<Token>): (r: Option<seq<Token>>)
    ensures r.Some? ==> |r.value| <= |tokens|
  {
    if tokens == [] || tokens[0].kind != Identifier || !HasPrefix(tokens[0].text, "x") then None
    else if |tokens[0].text| > 1 then Some([Token(Identifier, tokens[0].text[1..])] + tokens[1..])
    else Some(tokens[1..])
  }

  function ParseType(tokens: seq<Token>, abbreviated: bool): (r: Option<(Type, seq<Token>)>)
    ensures r.Some? ==> |r.value.1| < |tokens|
    decreases |tokens|, 1
  {
    if tokens == [] then None
    else
      var token, rest := tokens[0], tokens[1..];
      if token.kind == Identifier && SignednessOf(token.text).Some? then
        match IntegerWidth(token.text, SignednessOf(token.text).value)
        case None => None
        case Some(t) => Some((t, rest))
      else if IsNamed(token, "array", abbreviated) then ParseArrayRest(rest)
      else if IsNamed(token, "struct", abbreviated) then
        if !At(rest, "<") then None
        else if At(rest[1..], ">") then Some((Struct([]), rest[2..]))
        else
          match ParseFields(rest[1..], abbreviated)
          case None => None
          case Some((fields, rest')) => Some((Struct(fields), rest'))
      else if IsNamed(token, "union", abbreviated) then
        if !At(rest, "<") then None
        else if At(rest[1..], ">") then Some((Union([]), rest[2..]))
        else
          match ParseMembers(rest[1..])
          case None => None
          case Some((members, rest')) => Some((Union(members), rest'))
      else if IsNamed(token, "inout", abbreviated) then
        if !At(rest, "<") then None
        else
          match ParseType(rest[1..], abbreviated)
          case None => None
          case Some((element, rest')) => if At(rest', ">") then Some((InOut(element), rest'[1..])) else None
      else if token.text == "!seq.clock" then Some((Clock, rest))
      else if token.kind == TypeIdentifier && '.' !in token.text then Some((TypeAlias(token.text), rest))
      else None
  }

  /** What follows the name of an array. */
  function ParseArrayRest(tokens: seq<Token>): (r: Option<(Type, seq<Token>)>)
    ensures r.Some? ==> |r.value.1| < |tokens|
    decreases |tokens|, 2
  {
    if !At(tokens, "<") then None
    else
      match Unsigned(tokens[1..])
      case None => None
      case Some((size, rest)) =>
        match SplitSeparator(rest)
        case None => None
        case Some(split) =>
          match ParseType(split, true)
          case None => None
          case Some((element, after)) => if At(after, ">") then Some((Array(size, element), after[1..])) else None
  }

  /** Fields separated by commas, up to and with the closing bracket. */
  function ParseFields(tokens: seq<Token>, abbreviated: bool): (r: Option<(seq<Field>, seq<Token>)>)
    ensures r.Some? ==> |r.value.1| < |tokens|
    decreases |tokens|, 0
  {
    if |tokens| < 2 || tokens[0].kind != Identifier || tokens[1].text != ":" then None
    else
      match ParseType(tokens[2..], abbreviated)
      case None => None
      case Some((ty, rest)) =>
        var field := Field(tokens[0].text, ty);
        if At(rest, ">") then Some(([field], rest[1..]))
        else if !At(rest, ",") then None
        else
          match ParseFields(rest[1..], abbreviated)
          case None => None
          case Some((fields, rest')) => Some(([field] + fields, rest'))
  }

  function ParseOffset(tokens: seq<Token>): (r: Option<(Option<nat>, seq<Token>)>)
    ensures r.Some? ==> |r.value.1| <= |tokens|
  {
    if !At(tokens, "offset") then Some((None, tokens))
    else
      match Unsigned(tokens[1..])
      case None => None
      case Some((n, rest)) => Some((Some(n), rest))
  }

  function ParseMembers(tokens: seq<Token>): (r: Option<(seq<Member>, seq<Token>)>)
    ensures r.Some? ==> |r.value.1| < |tokens|
    decreases |tokens|, 0
  {
    if |tokens| < 2 || tokens[0].kind != Identifier || tokens[1].text != ":" then None
    else
      match ParseType(tokens[2..], false)
      case None => None
      case Some((ty, rest)) =>
        match ParseOffset(rest)
        case None => None
        case Some((offset, rest')) =>
          var member := Member(tokens[0].text, ty, offset);
          if At(rest', ">") then Some(([member], rest'[1..]))
          else if !At(rest', ",") then None
          else
            match ParseMembers(rest'[1..])
            case None => None
            case Some((members, rest2)) => Some(([member] + members, rest2))
  }

  // ----- parsing what was printed -----

  lemma {:induction false} DecimalNumber(n: nat)
    ensures NumberOf(DecimalText(n), 10) == Some(n)
  {
    var text := DecimalText(n);
    if n < 10 {
      assert text[..0] == "";
      assert text[0] == ('0' as int + n) as char;
    } else {
      DecimalNumber(n / 10);
      assert text[..|text| - 1] == DecimalText(n / 10);
      assert text[|text| - 1] == ('0' as int + n % 10) as char;
    }
  }

  lemma DecimalDigits(n: nat)
    ensures AllDigits(DecimalText(n))
  {
  }

  /** The text of an integer type reads back as its signedness and width. */
  lemma IntegerRecognised(width: nat, signedness: Signedness)
    requires 0 < width < U32
    ensures SignednessOf(IntegerPrefix(signedness) + DecimalText(width)) == Some(signedness)
    ensures IntegerWidth(IntegerPrefix(signedness) + DecimalText(width), signedness) == Some(Integer(width, signedness))
  {
    var prefix, digits := IntegerPrefix(signedness), DecimalText(width);
    var text := prefix + digits;
    assert text[|prefix|..] == digits;
    assert text[..|prefix|] == prefix;
    DecimalDigits(width);
    DecimalNumber(width);
    hide DecimalText;
    hide NumberOf;
    assert signedness == Signless ==> text[..1] == "i" && text[0] == 'i' && text[1..] == digits;
    assert signedness == SignedInteger ==> text[..2] == "si" && text[2..] == digits;
    assert signedness == UnsignedInteger ==> text[..2] == "ui" && text[0] == 'u' && text[2..] == digits;
  }

  lemma ParseInteger(width: nat, signedness: Signedness, abbreviated: bool, flag: bool, more: seq<Token>)
    requires 0 < width < U32
    ensures ParseType(TypeTokens(Integer(width, signedness), abbreviated) + more, flag) ==
      Some((Integer(width, signedness), more))
  {
    IntegerRecognised(width, signedness);
    hide SignednessOf;
    hide IntegerWidth;
    hide DecimalText;
    hide IntegerPrefix;
    var tokens := TypeTokens(Integer(width, signedness), abbreviated) + more;
    assert tokens[0] == Token(Identifier, IntegerPrefix(signedness) + DecimalText(width)) && tokens[1..] == more;
  }

  /** No aggregate name reads as an integer. */
  lemma NamesAreNoIntegers()
    ensures SignednessOf("array") == None && SignednessOf("struct") == None
    ensures SignednessOf("union") == None && SignednessOf("inout") == None
  {
    assert "array"[..1] == "a" && "array"[..2] == "ar";
    assert "struct"[..1] == "s" && "struct"[..2] == "st";
    assert "union"[..1] == "u" && "union"[..2] == "un";
    assert "inout"[..1] == "i" && "inout"[..2] == "in" && "inout"[1..] == "nout";
    assert "nout"[0] == 'n';
  }

  lemma Unprefixed(name: string)
    requires name == "array" || name == "struct" || name == "union" || name == "inout"
    ensures forall other: string ::
      (other == "array" || other == "struct" || other == "union" || other == "inout") ==>
        ("!hw." + name == "!hw." + other <==> name == other) && "!hw." + name != other
    ensures "!hw." + name != "!seq.clock"
  {
    assert ("!hw." + name)[..4] == "!hw." && ("!hw." + name)[4..] == name;
    forall other: string | other == "array" || other == "struct" || other == "union" || other == "inout"
      ensures ("!hw." + name == "!hw." + other <==> name == other) && "!hw." + name != other
    {
      assert ("!hw." + other)[4..] == other;
      assert ("!hw." + name)[0] == '!';
    }
    assert "!seq.clock"[1] == 's' && ("!hw." + name)[1] == 'h';
  }

  /** A name token is recognised as that name only. */
  lemma NameRecognised(name: string, abbreviated: bool, flag: bool)
    requires name == "array" || name == "struct" || name == "union" || name == "inout"
    requires abbreviated ==> flag
    ensures var token := NameToken(name, abbreviated);
      && !(token.kind == Identifier && SignednessOf(token.text).Some?)
      && (IsNamed(token, "array", flag) <==> name == "array") && (IsNamed(token, "struct", flag) <==> name == "struct")
      && (IsNamed(token, "union", flag) <==> name == "union") && (IsNamed(token, "inout", flag) <==> name == "inout")
  {
    NamesAreNoIntegers();
    Unprefixed("array");
    Unprefixed("struct");
    Unprefixed("union");
    Unprefixed("inout");
  }

  lemma UnsignedParsed(n: nat, rest: seq<Token>)
    requires n < U64
    ensures Unsigned([Token(Number, DecimalText(n))] + rest) == Some((n, rest))
  {
    DecimalNumber(n);
    var tokens := [Token(Number, DecimalText(n))] + rest;
    assert tokens[0] == Token(Number, DecimalText(n)) && tokens[1..] == rest;
  }

  lemma HeadAndTail<T>(head: T, tail: seq<T>, rest: seq<T>)
    ensures ([head] + tail + rest)[0] == head && ([head] + tail + rest)[1..] == tail + rest
  {
  }

  lemma SeparatorSplit(tokens: seq<Token>, rest: seq<Token>)
    requires tokens != [] && tokens[0].text != ""
    ensures SplitSeparator(Fused(tokens) + rest) == Some(tokens + rest)
  {
    if tokens[0].kind == Identifier {
      var text := "x" + tokens[0].text;
      HeadAndTail(Token(Identifier, text), tokens[1..], rest);
      assert text[..1] == "x" && text[1..] == tokens[0].text;
      Associates([tokens[0]], tokens[1..], rest);
      assert [tokens[0]] + tokens[1..] == tokens;
    } else {
      HeadAndTail(Token(Identifier, "x"), tokens, rest);
      assert "x"[..1] == "x";
    }
  }

  lemma FirstTokenText(t: Type, abbreviated: bool)
    requires ValidType(t)
    ensures TypeTokens(t, abbreviated)[0].text != ""
  {
  }

  /** Parsing the tokens of a printed type gives the type back, also where the parser
      accepts abbreviations that the printer did not use. */
  lemma {:induction false} ParsePrinted(t: Type, abbreviated: bool, flag: bool, more: seq<Token>)
    requires ValidType(t) && (abbreviated ==> flag)
    ensures ParseType(TypeTokens(t, abbreviated) + more, flag) == Some((t, more))
    decreases t, 1
  {
    match t {
      case Integer(width, signedness) => ParseInteger(width, signedness, abbreviated, flag, more);
      case Array(size, element) => ParseArray(t, abbreviated, flag, more);
      case Struct(fields) => ParseStruct(t, abbreviated, flag, more);
      case Union(members) => ParseUnion(t, abbreviated, flag, more);
      case InOut(element) => ParseInOut(t, abbreviated, flag, more);
      case Clock =>
        ClockRecognised(flag);
        var tokens := TypeTokens(t, abbreviated) + more;
        assert tokens[0] == Token(TypeIdentifier, "!seq.clock") && tokens[1..] == more;
      case TypeAlias(name) =>
        AliasRecognised(name, flag);
        var tokens := TypeTokens(t, abbreviated) + more;
        assert tokens[0] == Token(TypeIdentifier, name) && tokens[1..] == more;
    }
  }

  lemma ClockRecognised(flag: bool)
    ensures var token := Token(TypeIdentifier, "!seq.clock");
      !IsNamed(token, "array", flag) && !IsNamed(token, "struct", flag) && !IsNamed(token, "union", flag) &&
      !IsNamed(token, "inout", flag)
  {
    Unprefixed("array");
    Unprefixed("struct");
    Unprefixed("union");
    Unprefixed("inout");
    assert "!seq.clock"[0] == '!';
  }

  lemma AliasRecognised(name: string, flag: bool)
    requires IsAlias(name)
    ensures var token := Token(TypeIdentifier, name);
      !IsNamed(token, "array", flag) && !IsNamed(token, "struct", flag) && !IsNamed(token, "union", flag) &&
      !IsNamed(token, "inout", flag)
    ensures name != "!seq.clock" && '.' !in name
  {
    assert forall other: string :: ("!hw." + other)[3] == '.';
    assert "!seq.clock"[4] == '.';
  }

  lemma {:induction false} ParseArray(t: Type, abbreviated: bool, flag: bool, more: seq<Token>)
    requires t.Array? && ValidType(t) && (abbreviated ==> flag)
    ensures ParseType(TypeTokens(t, abbreviated) + more, flag) == Some((t, more))
    decreases t, 0
  {
    hide IsNamed;
    hide SignednessOf;
    hide Unsigned;
    hide SplitSeparator;
    hide Fused;
    hide DecimalText;
    var size, element := t.size, t.element;
    var inner := TypeTokens(element, true);
    var tokens := TypeTokens(t, abbreviated) + more;
    var tail := Fused(inner) + ([CLOSE] + more);
    var number := [Token(Number, DecimalText(size))] + tail;
    NameRecognised("array", abbreviated, flag);
    assert tokens[0] == NameToken("array", abbreviated) && tokens[1..] == [OPEN] + number;
    assert tokens[1..][1..] == number;
    UnsignedParsed(size, tail);
    FirstTokenText(element, true);
    SeparatorSplit(inner, [CLOSE] + more);
    ParsePrinted(element, true, true, [CLOSE] + more);
    assert ([CLOSE] + more)[1..] == more;
  }

  lemma {:induction false} ParseInOut(t: Type, abbreviated: bool, flag: bool, more: seq<Token>)
    requires t.InOut? && ValidType(t) && (abbreviated ==> flag)
    ensures ParseType(TypeTokens(t, abbreviated) + more, flag) == Some((t, more))
    decreases t, 0
  {
    hide IsNamed;
    hide SignednessOf;
    var inner := TypeTokens(t.element, false);
    var tokens := TypeTokens(t, abbreviated) + more;
    NameRecognised("inout", abbreviated, flag);
    assert tokens[0] == NameToken("inout", abbreviated) && tokens[1..] == [OPEN] + (inner + ([CLOSE] + more));
    assert tokens[1..][1..] == inner + ([CLOSE] + more);
    ParsePrinted(t.element, false, flag, [CLOSE] + more);
    assert ([CLOSE] + more)[1..] == more;
  }

  lemma {:induction false} ParseStruct(t: Type, abbreviated: bool, flag: bool, more: seq<Token>)
    requires t.Struct? && ValidType(t) && (abbreviated ==> flag)
    ensures ParseType(TypeTokens(t, abbreviated) + more, flag) == Some((t, more))
    decreases t, 0
  {
    hide IsNamed;
    hide SignednessOf;
    var inner := FieldTokens(t.fields);
    var tokens := TypeTokens(t, abbreviated) + more;
    NameRecognised("struct", abbreviated, flag);
    assert tokens[0] == NameToken("struct", abbreviated) && tokens[1..] == [OPEN] + (inner + ([CLOSE] + more));
    assert tokens[1..][1..] == inner + ([CLOSE] + more);
    if t.fields == [] {
      assert inner + ([CLOSE] + more) == [CLOSE] + more;
      assert tokens[1..][2..] == more;
    } else {
      assert (inner + ([CLOSE] + more))[0] == Token(Identifier, t.fields[0].name);
      NameIsNoSymbol(t.fields[0].name);
      ParsePrintedFields(t.fields, flag, more);
    }
  }

  lemma {:induction false} ParseUnion(t: Type, abbreviated: bool, flag: bool, more: seq<Token>)
    requires t.Union? && ValidType(t) && (abbreviated ==> flag)
    ensures ParseType(TypeTokens(t, abbreviated) + more, flag) == Some((t, more))
    decreases t, 0
  {
    hide IsNamed;
    hide SignednessOf;
    var inner := MemberTokens(t.members);
    var tokens := TypeTokens(t, abbreviated) + more;
    NameRecognised("union", abbreviated, flag);
    assert tokens[0] == NameToken("union", abbreviated) && tokens[1..] == [OPEN] + (inner + ([CLOSE] + more));
    assert tokens[1..][1..] == inner + ([CLOSE] + more);
    if t.members == [] {
      assert inner + ([CLOSE] + more) == [CLOSE] + more;
      assert tokens[1..][2..] == more;
    } else {
      assert (inner + ([CLOSE] + more))[0] == Token(Identifier, t.members[0].name);
      NameIsNoSymbol(t.members[0].name);
      ParsePrintedMembers(t.members, more);
    }
  }

  lemma NameIsNoSymbol(name: string)
    requires IsIdentifier(name)
    ensures name != ">" && name != ","
  {
  }

  /** A label, then the text of what it labels. */
  lemma AfterLabel<T>(a: T, b: T, first: seq<T>, second: seq<T>, rest: seq<T>)
    ensures ([a, b] + first + second + rest)[0] == a
    ensures ([a, b] + first + second + rest)[1] == b
    ensures ([a, b] + first + second + rest)[2..] == first + (second + rest)
  {
    var all := [a, b] + first + second + rest;
    assert all == [a, b] + (first + (second + rest));
  }

  /** One field: its label and its type, followed by the end of the list or another field. */
  lemma FieldStep(tokens: seq<Token>, name: string, ty: Type, flag: bool, rest: seq<Token>)
    requires |tokens| >= 2 && tokens[0] == Token(Identifier, name) && tokens[1] == COLON && rest != []
    requires ParseType(tokens[2..], flag) == Some((ty, rest))
    ensures rest[0] == CLOSE ==> ParseFields(tokens, flag) == Some(([Field(name, ty)], rest[1..]))
    ensures rest[0] == COMMA && ParseFields(rest[1..], flag).Some? ==>
      var following := ParseFields(rest[1..], flag).value;
      ParseFields(tokens, flag) == Some(([Field(name, ty)] + following.0, following.1))
    ensures rest[0] == COMMA && ParseFields(rest[1..], flag) == None ==> ParseFields(tokens, flag) == None
  {
    hide ParseType;
  }

  lemma {:induction false} ParsePrintedFields(fields: seq<Field>, flag: bool, more: seq<Token>)
    requires fields != []
    requires forall i :: 0 <= i < |fields| ==> IsIdentifier(fields[i].name) && ValidType(fields[i].ty)
    ensures ParseFields(FieldTokens(fields) + ([CLOSE] + more), flag) == Some((fields, more))
    decreases fields, 0
  {
    hide TypeTokens;
    hide ParseType;
    hide ParseFields;
    hide FieldsText;
    hide Assembly;
    hide IsIdentifier;
    hide ValidType;
    hide FieldTokens;
    var name, ty, end := fields[0].name, fields[0].ty, [CLOSE] + more;
    var tokens := FieldTokens(fields) + end;
    FieldsSplit(fields, "");
    if |fields| == 1 {
      NothingAfter([Token(Identifier, name), COLON] + TypeTokens(ty, false));
      AfterLabel(Token(Identifier, name), COLON, TypeTokens(ty, false), [], end);
      assert [] + end == end;
      ParsePrinted(ty, false, flag, end);
      FieldStep(tokens, name, ty, flag, end);
      assert end[1..] == more;
      assert fields == [Field(name, ty)];
    } else {
      var tail := FieldTokens(fields[1..]);
      AfterLabel(Token(Identifier, name), COLON, TypeTokens(ty, false), [COMMA] + tail, end);
      Associates([COMMA], tail, end);
      ParsePrinted(ty, false, flag, [COMMA] + (tail + end));
      assert ([COMMA] + (tail + end))[1..] == tail + end;
      ParsePrintedFields(fields[1..], flag, more);
      FieldStep(tokens, name, ty, flag, [COMMA] + (tail + end));
      assert [Field(name, ty)] + fields[1..] == fields;
    }
  }

  lemma OffsetParsed(offset: Option<nat>, rest: seq<Token>)
    requires offset.Some? ==> offset.value < U64
    requires rest != [] && rest[0].text != "offset"
    ensures ParseOffset(OffsetTokens(offset) + rest) == Some((offset, rest))
  {
    match offset {
      case None => assert OffsetTokens(offset) + rest == rest;
      case Some(n) =>
        UnsignedParsed(n, rest);
        var tokens := OffsetTokens(offset) + rest;
        assert tokens[0] == Token(Identifier, "offset");
        assert tokens[1..] == [Token(Number, DecimalText(n))] + rest;
    }
  }

  /** One member: its label, its type and its offset, followed by the end of the list or another member. */
  lemma MemberStep(tokens: seq<Token>, member: Member, after: seq<Token>, rest: seq<Token>)
    requires |tokens| >= 2 && tokens[0] == Token(Identifier, member.name) && tokens[1] == COLON && rest != []
    requires ParseType(tokens[2..], false) == Some((member.ty, after))
    requires ParseOffset(after) == Some((member.offset, rest))
    ensures rest[0] == CLOSE ==> ParseMembers(tokens) == Some(([member], rest[1..]))
    ensures rest[0] == COMMA && ParseMembers(rest[1..]).Some? ==>
      var following := ParseMembers(rest[1..]).value;
      ParseMembers(tokens) == Some(([member] + following.0, following.1))
    ensures rest[0] == COMMA && ParseMembers(rest[1..]) == None ==> ParseMembers(tokens) == None
  {
    hide ParseType;
    hide ParseOffset;
  }

  lemma {:induction false} ParsePrintedMembers(members: seq<Member>, more: seq<Token>)
    requires members != []
    requires forall i :: 0 <= i < |members| ==>
      IsIdentifier(members[i].name) && ValidType(members[i].ty)
      && (members[i].offset.Some? ==> members[i].offset.value < U64)
    ensures ParseMembers(MemberTokens(members) + ([CLOSE] + more)) == Some((members, more))
    decreases members, 0
  {
    hide TypeTokens;
    hide ParseType;
    hide ParseMembers;
    hide ParseOffset;
    hide OffsetTokens;
    hide IsIdentifier;
    hide ValidType;
    hide MemberTokens;
    hide MembersText;
    hide Assembly;
    var member, end := members[0], [CLOSE] + more;
    var tag, offset := Token(Identifier, member.name), OffsetTokens(member.offset);
    var tokens := MemberTokens(members) + end;
    MembersSplit(members, "");
    if |members| == 1 {
      AfterLabel(tag, COLON, TypeTokens(member.ty, false), offset, end);
      ParsePrinted(member.ty, false, false, offset + end);
      OffsetParsed(member.offset, end);
      MemberStep(tokens, member, offset + end, end);
      assert end[1..] == more;
      assert members == [member];
    } else {
      var tail := MemberTokens(members[1..]);
      var rest := [COMMA] + (tail + end);
      AfterLabel(tag, COLON, TypeTokens(member.ty, false), offset + ([COMMA] + tail), end);
      Associates(offset, [COMMA] + tail, end);
      Associates([COMMA], tail, end);
      ParsePrinted(member.ty, false, false, offset + rest);
      OffsetParsed(member.offset, rest);
      assert rest[1..] == tail + end;
      ParsePrintedMembers(members[1..], more);
      MemberStep(tokens, member, offset + rest, rest);
      assert [member] + members[1..] == members;
    }
  }

  /** Lexing the printed text and parsing the tokens gives the tree back. */
  lemma TypeRoundTrip(t: Type, abbreviated: bool)
    requires ValidType(t)
    ensures Lex(Assembly(t, abbreviated)).Some?
    ensures ParseType(Lex(Assembly(t, abbreviated)).value, abbreviated) == Some((t, []))
  {
    hide Lex;
    hide ParseType;
    NothingAfter(Assembly(t, abbreviated));
    LexPrinted(t, abbreviated, "");
    LexNothing();
    NothingAfter(TypeTokens(t, abbreviated));
    ParsePrinted(t, abbreviated, abbreviated, []);
  }

  // ----- which printed types do not parse -----

  /** No type can be read from the start of the text. */
  predicate Refused(s: string, flag: bool) {
    var lexed := Lex(s);
    lexed.Some? ==> ParseType(lexed.value, flag) == None
  }

  lemma {:induction false} FirstTokenHasText(s: string)
    requires Lex(s).Some? && Lex(s).value != []
    ensures Lex(s).value[0].text != ""
    decreases |s|
  {
    hide NextToken;
    var (kind, n) := NextToken(s).value;
    if kind == Blank {
      FirstTokenHasText(s[n..]);
    }
  }

  /** What follows the name of an aggregate and its bracket decides. */
  lemma NameParsed(name: string, abbreviated: bool, flag: bool, inner: seq<Token>)
    requires name == "array" || name == "struct" || name == "union" || name == "inout"
    requires abbreviated ==> flag
    requires name == "array" ==> ParseArrayRest([OPEN] + inner) == None
    requires name == "struct" ==> !At(inner, ">") && ParseFields(inner, flag) == None
    requires name == "union" ==> !At(inner, ">") && ParseMembers(inner) == None
    requires name == "inout" ==> ParseType(inner, flag) == None
    ensures ParseType([NameToken(name, abbreviated), OPEN] + inner, flag) == None
  {
    NameRecognised(name, abbreviated, flag);
    var tokens := [NameToken(name, abbreviated), OPEN] + inner;
    assert tokens[0] == NameToken(name, abbreviated) && tokens[1..] == [OPEN] + inner;
    assert tokens[1..][1..] == inner;
    hide IsNamed;
    hide SignednessOf;
    hide NameToken;
  }

  /** The printed text of a type with an empty array of arrays is refused. */
  lemma {:induction false} PrintedRefused(t: Type, abbreviated: bool, flag: bool, rest: string)
    requires Printable(t) && HasEmptyArrayOfArrays(t) && Delimits(rest) && (abbreviated ==> flag)
    ensures Refused(Assembly(t, abbreviated) + rest, flag)
    decreases t, 1
  {
    match t {
      case Array(_, _) => ArrayRefused(t, abbreviated, flag, rest);
      case Struct(_) => StructRefused(t, abbreviated, flag, rest);
      case Union(_) => UnionRefused(t, abbreviated, flag, rest);
      case InOut(_) => InOutRefused(t, abbreviated, flag, rest);
    }
  }

  lemma NamedRefused(name: string, abbreviated: bool, flag: bool, tail: string)
    requires name == "array" || name == "struct" || name == "union" || name == "inout"
    requires abbreviated ==> flag
    requires Lex(tail).Some? ==>
      var inner := Lex(tail).value;
      && (name == "array" ==> ParseArrayRest([OPEN] + inner) == None)
      && (name == "struct" ==> !At(inner, ">") && ParseFields(inner, flag) == None)
      && (name == "union" ==> !At(inner, ">") && ParseMembers(inner) == None)
      && (name == "inout" ==> ParseType(inner, flag) == None)
    ensures Refused(Named(name, abbreviated) + "<" + tail, flag)
  {
    hide Lex;
    hide ParseType;
    hide Named;
    hide NameToken;
    LexName(name, abbreviated, tail);
    if Lex(tail).Some? {
      NameParsed(name, abbreviated, flag, Lex(tail).value);
    }
  }

  lemma {:induction false} ArrayRefused(t: Type, abbreviated: bool, flag: bool, rest: string)
    requires t.Array? && Printable(t) && HasEmptyArrayOfArrays(t) && Delimits(rest) && (abbreviated ==> flag)
    ensures Refused(Assembly(t, abbreviated) + rest, flag)
    decreases t, 0
  {
    var close := ">" + rest;
    var printed := Assembly(t.element, true) + close;
    var tail := DecimalText(t.size) + ("x" + printed);
    ArraySplit(t, abbreviated, rest);
    if t.size == 0 && t.element.Array? {
      ZeroSizeRefused(t.element, close);
    } else {
      PrintedRefused(t.element, true, true, close);
      ElementRefused(t.size, t.element, close);
    }
    hide *;
    NamedRefused("array", abbreviated, flag, tail);
  }

  lemma ZeroSizeRefused(element: Type, rest: string)
    requires element.Array?
    ensures var lexed := Lex(DecimalText(0) + ("x" + (Assembly(element, true) + rest)));
      lexed.Some? ==> ParseArrayRest([OPEN] + lexed.value) == None
  {
    hide Lex;
    hide ParseType;
    hide DecimalText;
    hide Assembly;
    ZeroReadsAsHexadecimal(element, rest);
    var lexed := Lex(DecimalText(0) + ("x" + (Assembly(element, true) + rest)));
    if lexed.Some? {
      HexadecimalIsNoSize(lexed.value);
      assert ([OPEN] + lexed.value)[1..] == lexed.value;
    }
  }

  lemma ElementRefused(size: nat, element: Type, rest: string)
    requires Printable(element) && (size == 0 ==> !element.Array?) && size < U64
    requires Refused(Assembly(element, true) + rest, true)
    ensures var lexed := Lex(DecimalText(size) + ("x" + (Assembly(element, true) + rest)));
      lexed.Some? ==> ParseArrayRest([OPEN] + lexed.value) == None
  {
    var printed := Assembly(element, true) + rest;
    AssemblyStarts(element, rest);
    hide Lex;
    hide Printable;
    hide Assembly;
    hide DecimalText;
    assert ("x" + printed)[1] == printed[0];
    LexNumber(size, "x" + printed);
    LexSeparator(printed);
    if Lex(printed).Some? {
      var tokens := Lex(printed).value;
      var number := [Token(Number, DecimalText(size))] + Fused(tokens);
      UnsignedParsed(size, Fused(tokens));
      assert ([OPEN] + number)[1..] == number;
      FusedSplit(printed);
      hide Unsigned;
      hide SplitSeparator;
      hide Fused;
    }
  }

  lemma FusedSplit(s: string)
    requires Lex(s).Some?
    ensures SplitSeparator(Fused(Lex(s).value)) == Some(Lex(s).value)
  {
    var tokens := Lex(s).value;
    if tokens != [] {
      FirstTokenHasText(s);
      SeparatorSplit(tokens, []);
      NothingAfter(Fused(tokens));
      NothingAfter(tokens);
    } else {
      assert Fused(tokens) == [Token(Identifier, "x")];
      assert "x"[..1] == "x";
    }
  }

  lemma {:induction false} InOutRefused(t: Type, abbreviated: bool, flag: bool, rest: string)
    requires t.InOut? && Printable(t) && HasEmptyArrayOfArrays(t) && Delimits(rest) && (abbreviated ==> flag)
    ensures Refused(Assembly(t, abbreviated) + rest, flag)
    decreases t, 0
  {
    var tail := Assembly(t.element, false) + (">" + rest);
    Bracketed("inout", abbreviated, Assembly(t.element, false), rest);
    PrintedRefused(t.element, false, flag, ">" + rest);
    hide Lex;
    hide ParseType;
    NamedRefused("inout", abbreviated, flag, tail);
  }

  lemma Bracketed(name: string, abbreviated: bool, inner: string, rest: string)
    ensures Named(name, abbreviated) + "<" + inner + ">" + rest == Named(name, abbreviated) + "<" + (inner + (">" + rest))
  {
  }

  lemma {:induction false} StructRefused(t: Type, abbreviated: bool, flag: bool, rest: string)
    requires t.Struct? && Printable(t) && HasEmptyArrayOfArrays(t) && Delimits(rest) && (abbreviated ==> flag)
    ensures Refused(Assembly(t, abbreviated) + rest, flag)
    decreases t, 0
  {
    Bracketed("struct", abbreviated, FieldsText(t.fields), rest);
    FieldsRefused(t.fields, flag, ">" + rest);
    hide Lex;
    hide ParseType;
    NamedRefused("struct", abbreviated, flag, FieldsText(t.fields) + (">" + rest));
  }

  lemma {:induction false} UnionRefused(t: Type, abbreviated: bool, flag: bool, rest: string)
    requires t.Union? && Printable(t) && HasEmptyArrayOfArrays(t) && Delimits(rest) && (abbreviated ==> flag)
    ensures Refused(Assembly(t, abbreviated) + rest, flag)
    decreases t, 0
  {
    Bracketed("union", abbreviated, MembersText(t.members), rest);
    MembersRefused(t.members, ">" + rest);
    hide Lex;
    hide ParseType;
    NamedRefused("union", abbreviated, flag, MembersText(t.members) + (">" + rest));
  }

  /** A label before a type that is refused. */
  lemma LabelledRefused(name: string, ty: Type, flag: bool, rest: string)
    requires IsIdentifier(name) && Printable(ty) && Refused(Assembly(ty, false) + rest, flag)
    ensures var lexed := Lex(name + ": " + Assembly(ty, false) + rest);
      lexed.Some? ==>
        && |lexed.value| >= 2 && lexed.value[0] == Token(Identifier, name) && lexed.value[1] == COLON
        && ParseType(lexed.value[2..], flag) == None
  {
    var printed := Assembly(ty, false) + rest;
    assert name + ": " + Assembly(ty, false) + rest == name + ([':'] + (" " + printed));
    PlainAssemblyStarts(ty, rest);
    hide Lex;
    hide ParseType;
    hide Assembly;
    LexLabel(name, printed);
    if Lex(printed).Some? {
      assert ([Token(Identifier, name), COLON] + Lex(printed).value)[2..] == Lex(printed).value;
    }
  }

  lemma {:induction false} FieldsRefused(fields: seq<Field>, flag: bool, rest: string)
    requires forall i :: 0 <= i < |fields| ==> IsIdentifier(fields[i].name) && Printable(fields[i].ty)
    requires exists i :: 0 <= i < |fields| && HasEmptyArrayOfArrays(fields[i].ty)
    requires rest != "" && rest[0] == '>'
    ensures var lexed := Lex(FieldsText(fields) + rest);
      lexed.Some? ==> !At(lexed.value, ">") && ParseFields(lexed.value, flag) == None
    decreases fields, 0
  {
    hide Lex;
    hide ParseType;
    hide Assembly;
    hide TypeTokens;
    hide IsIdentifier;
    hide Printable;
    hide HasEmptyArrayOfArrays;
    var name, ty := fields[0].name, fields[0].ty;
    NameIsNoSymbol(name);
    FieldsSplit(fields, rest);
    hide FieldsText;
    hide FieldTokens;
    var more := if |fields| == 1 then "" else FieldsText(fields[1..]) + rest;
    var following := if |fields| == 1 then rest else ", " + more;
    if HasEmptyArrayOfArrays(ty) {
      PrintedRefused(ty, false, flag, following);
      LabelledRefused(name, ty, flag, following);
    } else {
      LexLabelled(name, ty, ", " + more);
      FieldsStart(fields[1..], rest);
      LexComma(more);
      FieldsRefused(fields[1..], flag, rest);
      if Lex(more).Some? {
        var tail := [COMMA] + Lex(more).value;
        var tokens := [Token(Identifier, name), COLON] + TypeTokens(ty, false) + tail;
        assert tokens[2..] == TypeTokens(ty, false) + tail && tail[1..] == Lex(more).value;
        ParsePrinted(ty, false, flag, tail);
        FieldStep(tokens, name, ty, flag, tail);
      }
    }
  }

  lemma {:induction false} MembersRefused(members: seq<Member>, rest: string)
    requires forall i :: 0 <= i < |members| ==>
      IsIdentifier(members[i].name) && Printable(members[i].ty)
      && (members[i].offset.Some? ==> members[i].offset.value < U64)
    requires exists i :: 0 <= i < |members| && HasEmptyArrayOfArrays(members[i].ty)
    requires rest != "" && rest[0] == '>'
    ensures var lexed := Lex(MembersText(members) + rest);
      lexed.Some? ==> !At(lexed.value, ">") && ParseMembers(lexed.value) == None
    decreases members, 0
  {
    hide Lex;
    hide ParseType;
    hide Assembly;
    hide TypeTokens;
    hide IsIdentifier;
    hide Printable;
    hide HasEmptyArrayOfArrays;
    hide OffsetText;
    hide OffsetTokens;
    hide ParseOffset;
    var member := members[0];
    NameIsNoSymbol(member.name);
    MembersSplit(members, rest);
    hide MembersText;
    hide MemberTokens;
    var more := if |members| == 1 then "" else MembersText(members[1..]) + rest;
    var end := if |members| == 1 then rest else ", " + more;
    var following := OffsetText(member.offset) + end;
    OffsetDelimits(member.offset, end);
    if HasEmptyArrayOfArrays(member.ty) {
      PrintedRefused(member.ty, false, false, following);
      LabelledRefused(member.name, member.ty, false, following);
    } else {
      LexLabelled(member.name, member.ty, following);
      LexOffset(member.offset, end);
      MembersStart(members[1..], rest);
      LexComma(more);
      MembersRefused(members[1..], rest);
      if Lex(more).Some? {
        var tail := [COMMA] + Lex(more).value;
        var after := OffsetTokens(member.offset) + tail;
        var tokens := [Token(Identifier, member.name), COLON] + TypeTokens(member.ty, false) + after;
        assert tokens[2..] == TypeTokens(member.ty, false) + after && tail[1..] == Lex(more).value;
        ParsePrinted(member.ty, false, false, after);
        OffsetParsed(member.offset, tail);
        MemberStep(tokens, member, after, tail);
      }
    }
  }

  /** A printed type parses back exactly when no array of size zero inside it has array
      elements; otherwise its text is refused. */
  lemma TypeParsesExactly(t: Type, abbreviated: bool)
    requires Printable(t)
    ensures var lexed := Lex(Assembly(t, abbreviated));
      && (!HasEmptyArrayOfArrays(t) <==> lexed.Some? && ParseType(lexed.value, abbreviated) == Some((t, [])))
      && (HasEmptyArrayOfArrays(t) <==> lexed.Some? ==> ParseType(lexed.value, abbreviated) == None)
  {
    hide Lex;
    hide ParseType;
    if HasEmptyArrayOfArrays(t) {
      NothingAfter(Assembly(t, abbreviated));
      PrintedRefused(t, abbreviated, abbreviated, "");
    } else {
      TypeRoundTrip(t, abbreviated);
    }
  }

  lemma ZeroReadsAsHexadecimal(element: Type, rest: string)
    requires element.Array?
    ensures var s := DecimalText(0) + ("x" + (Assembly(element, true) + rest));
      Lex(s).Some? ==> Lex(s).value != [] && Lex(s).value[0] == Token(Number, "0xa")
  {
    hide Lex;
    assert Assembly(element, true)[..2] == "ar";
    assert DecimalText(0) == "0";
    var text := Assembly(element, true);
    hide Assembly;
    hide DecimalText;
    var after := text[1..] + rest;
    assert "0" + ("x" + (text + rest)) == "0xa" + after;
    assert after[0] == text[1] == 'r';
    HexadecimalFirst(after);
    LexOne("0xa", Number, after);
  }

  lemma HexadecimalFirst(after: string)
    requires after != "" && after[0] == 'r'
    ensures NextToken("0xa" + after) == Some((Number, 3))
  {
    hide Span;
    var s := "0xa" + after;
    SpanOf("a", after, IsHex);
    SpanOf("0", "xa" + after, IsDigit);
    assert "0" + ("xa" + after) == s && s[2..] == "a" + after;
    assert s[0] == '0' && s[1] == 'x' && s[2] == 'a';
  }

  lemma HexadecimalIsNoSize(tokens: seq<Token>)
    requires tokens != [] && tokens[0] == Token(Number, "0xa")
    ensures Unsigned(tokens) == None
  {
    assert "0xa"[..2] == "0x" && "0xa"[2] == 'a';
    assert DigitOf('a', 10) == None;
  }

  lemma LexNothing()
    ensures Lex("") == Some([])
  {
  }

  // ----- the parser -----

  /** The tokens still to be parsed. */
  class TypeParser {
    var tokens: seq<Token>

    constructor (tokens: seq<Token>)
      ensures this.tokens == tokens
    {
      this.tokens := tokens;
    }

    /** Consumes the next token if it has the given text. */
    method Optional(text: string) returns (found: bool)
      modifies this
      ensures found == At(old(tokens), text)
      ensures tokens == if found then old(tokens)[1..] else old(tokens)
    {
      found := tokens != [] && tokens[0].text == text;
      if found {
        tokens := tokens[1..];
      }
    }

    method UnsignedNumber() returns (r: Option<nat>)
      modifies this
      ensures r == None <==> Unsigned(old(tokens)) == None
      ensures r.Some? ==> Unsigned(old(tokens)) == Some((r.value, tokens))
    {
      var parsed := Unsigned(tokens);
      if parsed == None {
        return None;
      }
      tokens := parsed.value.1;
      r := Some(parsed.value.0);
    }

    method TypeOf(abbreviated: bool) returns (r: Option<Type>)
      modifies this
      ensures r == None <==> ParseType(old(tokens), abbreviated) == None
      ensures r.Some? ==> ParseType(old(tokens), abbreviated) == Some((r.value, tokens))
      decreases |tokens|, 1
    {
      hide IsNamed;
      hide SignednessOf;
      hide IntegerWidth;
      hide Unsigned;
      hide SplitSeparator;
      hide ParseFields;
      hide ParseMembers;
      if tokens == [] {
        return None;
      }
      var token := tokens[0];
      tokens := tokens[1..];
      if token.kind == Identifier && SignednessOf(token.text).Some? {
        return IntegerWidth(token.text, SignednessOf(token.text).value);
      }
      if IsNamed(token, "array", abbreviated) {
        r := ArrayOf();
      } else if IsNamed(token, "struct", abbreviated) {
        var open := Optional("<");
        if !open {
          return None;
        }
        var empty := Optional(">");
        if empty {
          return Some(Struct([]));
        }
        var fields := FieldsOf(abbreviated);
        return if fields == None then None else Some(Struct(fields.value));
      } else if IsNamed(token, "union", abbreviated) {
        var open := Optional("<");
        if !open {
          return None;
        }
        var empty := Optional(">");
        if empty {
          return Some(Union([]));
        }
        var members := MembersOf();
        return if members == None then None else Some(Union(members.value));
      } else if IsNamed(token, "inout", abbreviated) {
        var open := Optional("<");
        if !open {
          return None;
        }
        var element := TypeOf(abbreviated);
        if element == None {
          return None;
        }
        var close := Optional(">");
        return if close then Some(InOut(element.value)) else None;
      } else if token.text == "!seq.clock" {
        return Some(Clock);
      } else if token.kind == TypeIdentifier && '.' !in token.text {
        return Some(TypeAlias(token.text));
      } else {
        return None;
      }
    }

    /** What follows the name of an array: the rest of the separator's token goes back. */
    method ArrayOf() returns (r: Option<Type>)
      modifies this
      ensures r == None <==> ParseArrayRest(old(tokens)) == None
      ensures r.Some? ==> ParseArrayRest(old(tokens)) == Some((r.value, tokens))
      decreases |tokens|, 2
    {
      hide Unsigned;
      hide ParseType;
      var open := Optional("<");
      if !open {
        return None;
      }
      UnsignedShorter(tokens);
      var size := UnsignedNumber();
      if size == None {
        return None;
      }
      var split := SplitSeparator(tokens);
      if split == None {
        return None;
      }
      tokens := split.value;
      var element := TypeOf(true);
      if element == None {
        return None;
      }
      var close := Optional(">");
      return if close then Some(Array(size.value, element.value)) else None;
    }

    method FieldsOf(abbreviated: bool) returns (r: Option<seq<Field>>)
      modifies this
      ensures r == None <==> ParseFields(old(tokens), abbreviated) == None
      ensures r.Some? ==> ParseFields(old(tokens), abbreviated) == Some((r.value, tokens))
      decreases |tokens|, 0
    {
      hide ParseType;
      var fields := [];
      ghost var all := ParseFields(tokens, abbreviated);
      NothingBefore(all);
      while true
        invariant |tokens| <= |old(tokens)|
        invariant FieldsSoFar(all, fields, ParseFields(tokens, abbreviated))
        decreases |tokens|
      {
        ghost var left := ParseFields(tokens, abbreviated);
        if |tokens| < 2 || tokens[0].kind != Identifier || tokens[1].text != ":" {
          return None;
        }
        var name := tokens[0].text;
        tokens := tokens[2..];
        var ty := TypeOf(abbreviated);
        if ty == None {
          return None;
        }
        var field := Field(name, ty.value);
        var close := Optional(">");
        if close {
          return Some(fields + [field]);
        }
        var comma := Optional(",");
        if !comma {
          return None;
        }
        OneMoreField(all, fields, field, left, ParseFields(tokens, abbreviated));
        fields := fields + [field];
      }
    }

    method MembersOf() returns (r: Option<seq<Member>>)
      modifies this
      ensures r == None <==> ParseMembers(old(tokens)) == None
      ensures r.Some? ==> ParseMembers(old(tokens)) == Some((r.value, tokens))
      decreases |tokens|, 0
    {
      hide ParseType;
      hide Unsigned;
      var members := [];
      ghost var all := ParseMembers(tokens);
      NothingBefore(all);
      while true
        invariant |tokens| <= |old(tokens)|
        invariant FieldsSoFar(all, members, ParseMembers(tokens))
        decreases |tokens|
      {
        ghost var left := ParseMembers(tokens);
        if |tokens| < 2 || tokens[0].kind != Identifier || tokens[1].text != ":" {
          return None;
        }
        var name := tokens[0].text;
        tokens := tokens[2..];
        var ty := TypeOf(false);
        if ty == None {
          return None;
        }
        var offset: Option<nat> := None;
        UnsignedShorter(if tokens == [] then [] else tokens[1..]);
        var given := Optional("offset");
        if given {
          offset := UnsignedNumber();
          if offset == None {
            return None;
          }
        }
        var member := Member(name, ty.value, offset);
        var close := Optional(">");
        if close {
          return Some(members + [member]);
        }
        var comma := Optional(",");
        if !comma {
          return None;
        }
        OneMoreField(all, members, member, left, ParseMembers(tokens));
        members := members + [member];
      }
    }
  }

  lemma UnsignedShorter(tokens: seq<Token>)
    ensures Unsigned(tokens).Some? ==> |Unsigned(tokens).value.1| < |tokens|
  {
  }

  ghost predicate FieldsSoFar<T>(all: Option<(seq<T>, seq<Token>)>, done: seq<T>, left: Option<(seq<T>, seq<Token>)>) {
    all == match left
      case None => None
      case Some((more, rest)) => Some((done + more, rest))
  }

  lemma NothingBefore<T>(all: Option<(seq<T>, seq<Token>)>)
    ensures FieldsSoFar(all, [], all)
  {
    if all.Some? {
      assert [] + all.value.0 == all.value.0;
    }
  }

  lemma OneMoreField<T>(all: Option<(seq<T>, seq<Token>)>, done: seq<T>, item: T, left: Option<(seq<T>, seq<Token>)>,
    next: Option<(seq<T>, seq<Token>)>)
    requires FieldsSoFar(all, done, left) && FieldsSoFar(left, [item], next)
    ensures FieldsSoFar(all, done + [item], next)
  {
    if next.Some? {
      assert done + ([item] + next.value.0) == done + [item] + next.value.0;
    }
  }
}
