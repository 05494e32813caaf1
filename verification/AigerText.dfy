/** Bytes, lines and numbers of an AIGER file, written and read back. */
module AigerText {
  import opened Fsm

  type Byte = n: nat | n < 256

  const NEWLINE: Byte := 10
  const SPACE: Byte := 32
  const ZERO: Byte := 48
  const PLUS: Byte := 43

  // ----- decimal numbers -----

  predicate IsDigit(b: Byte) {
    ZERO <= b <= ZERO + 9
  }

  function Decimal(n: nat): (r: seq<Byte>)
    ensures r != [] && forall i :: 0 <= i < |r| ==> IsDigit(r[i])
  {
    if n < 10 then [ZERO + n] else Decimal(n / 10) + [ZERO + n % 10]
  }

  function DigitsValue(digits: seq<Byte>): nat
    requires forall i :: 0 <= i < |digits| ==> IsDigit(digits[i])
  {
    if digits == [] then 0
    else
      assert IsDigit(digits[|digits| - 1]);
      DigitsValue(digits[..|digits| - 1]) * 10 + (digits[|digits| - 1] - ZERO)
  }

  /** An optional plus sign and at least one digit. */
  function ParseNumber(word: seq<Byte>): Option<nat> {
    var digits := if word != [] && word[0] == PLUS then word[1..] else word;
    if digits != [] && forall i :: 0 <= i < |digits| ==> IsDigit(digits[i]) then Some(DigitsValue(digits)) else None
  }

  lemma {:induction false} DigitsOfDecimal(n: nat)
    ensures DigitsValue(Decimal(n)) == n
  {
    if n >= 10 {
      DigitsOfDecimal(n / 10);
      var d := Decimal(n);
      assert d[..|d| - 1] == Decimal(n / 10);
    }
  }

  lemma ParseDecimal(n: nat)
    ensures ParseNumber(Decimal(n)) == Some(n)
  {
    DigitsOfDecimal(n);
    assert IsDigit(Decimal(n)[0]);
  }

  // ----- lines -----

  /** The bytes up to the next newline, and what follows it. */
  function ReadLine(bytes: seq<Byte>): (r: (seq<Byte>, seq<Byte>))
    ensures |r.1| <= |bytes| && (bytes != [] ==> |r.1| < |bytes|)
  {
    if bytes == [] then ([], [])
    else if bytes[0] == NEWLINE then ([], bytes[1..])
    else
      var (line, rest) := ReadLine(bytes[1..]);
      ([bytes[0]] + line, rest)
  }

  predicate IsLine(line: seq<Byte>) {
    forall i :: 0 <= i < |line| ==> line[i] != NEWLINE
  }

  lemma {:induction false} ReadWrittenLine(line: seq<Byte>, rest: seq<Byte>)
    requires IsLine(line)
    ensures ReadLine(line + [NEWLINE] + rest) == (line, rest)
  {
    if line == [] {
      assert line + [NEWLINE] + rest == [NEWLINE] + rest;
    } else {
      ReadWrittenLine(line[1..], rest);
      assert (line + [NEWLINE] + rest)[1..] == line[1..] + [NEWLINE] + rest;
      assert [line[0]] + line[1..] == line;
    }
  }

  // ----- words -----

  predicate IsWord(word: seq<Byte>) {
    word != [] && forall i :: 0 <= i < |word| ==> word[i] != SPACE
  }

  /** Splits on spaces and drops empty words. `word` is the word being read. */
  function SplitFrom(word: seq<Byte>, line: seq<Byte>): (r: seq<seq<Byte>>)
    decreases |line|
  {
    if line == [] then (if word == [] then [] else [word])
    else if line[0] == SPACE then (if word == [] then [] else [word]) + SplitFrom([], line[1..])
    else SplitFrom(word + [line[0]], line[1..])
  }

  function SplitLine(line: seq<Byte>): seq<seq<Byte>> {
    SplitFrom([], line)
  }

  function JoinWords(words: seq<seq<Byte>>): seq<Byte> {
    if words == [] then []
    else if |words| == 1 then words[0]
    else words[0] + [SPACE] + JoinWords(words[1..])
  }

  lemma {:induction false} SplitWord(word: seq<Byte>, more: seq<Byte>, rest: seq<Byte>)
    requires forall i :: 0 <= i < |more| ==> more[i] != SPACE
    ensures SplitFrom(word, more + rest) == SplitFrom(word + more, rest)
    decreases |more|
  {
    if more == [] {
      assert more + rest == rest && word + more == word;
    } else {
      assert (more + rest)[1..] == more[1..] + rest;
      SplitWord(word + [more[0]], more[1..], rest);
      assert word + [more[0]] + more[1..] == word + more;
    }
  }

  lemma {:induction false} SplitJoined(words: seq<seq<Byte>>)
    requires forall i :: 0 <= i < |words| ==> IsWord(words[i])
    ensures SplitLine(JoinWords(words)) == words
  {
    if words != [] {
      var first := words[0];
      assert IsWord(first);
      if |words| == 1 {
        assert first + [] == first;
        SplitWord([], first, []);
        assert [] + first == first;
        assert words == [first];
      } else {
        var tail := JoinWords(words[1..]);
        assert JoinWords(words) == first + ([SPACE] + tail);
        SplitWord([], first, [SPACE] + tail);
        assert [] + first == first;
        assert ([SPACE] + tail)[1..] == tail;
        SplitJoined(words[1..]);
        assert words == [first] + words[1..];
      }
    }
  }

  lemma DecimalIsWord(n: nat)
    ensures IsWord(Decimal(n)) && IsLine(Decimal(n))
  {
    forall i | 0 <= i < |Decimal(n)|
      ensures Decimal(n)[i] != SPACE && Decimal(n)[i] != NEWLINE
    {
      assert IsDigit(Decimal(n)[i]);
    }
  }

  lemma {:induction false} JoinedIsLine(words: seq<seq<Byte>>)
    requires forall i :: 0 <= i < |words| ==> IsLine(words[i])
    ensures IsLine(JoinWords(words))
  {
    if |words| > 1 {
      JoinedIsLine(words[1..]);
    }
  }

  /** A line of words ends in a newline, and reads back as the words. */
  function WriteWords(words: seq<seq<Byte>>): seq<Byte> {
    JoinWords(words) + [NEWLINE]
  }

  lemma ReadWrittenWords(words: seq<seq<Byte>>, rest: seq<Byte>)
    requires forall i :: 0 <= i < |words| ==> IsWord(words[i]) && IsLine(words[i])
    ensures ReadLine(WriteWords(words) + rest).1 == rest
    ensures SplitLine(ReadLine(WriteWords(words) + rest).0) == words
  {
    JoinedIsLine(words);
    ReadWrittenLine(JoinWords(words), rest);
    SplitJoined(words);
  }

  // ----- compressed numbers -----

  /** Seven bits a byte, least significant first; the top bit says more follow. */
  function Compressed(n: nat): (r: seq<Byte>)
    ensures r != []
  {
    if n < 128 then [n] else [n % 128 + 128] + Compressed(n / 128)
  }

  function ReadCompressed(bytes: seq<Byte>): (r: Option<(nat, seq<Byte>)>)
    ensures r.Some? ==> |r.value.1| < |bytes|
  {
    if bytes == [] then None
    else if bytes[0] < 128 then Some((bytes[0], bytes[1..]))
    else
      match ReadCompressed(bytes[1..])
      case None => None
      case Some((high, rest)) => Some((bytes[0] - 128 + 128 * high, rest))
  }

  lemma {:induction false} ReadWrittenCompressed(n: nat, rest: seq<Byte>)
    ensures ReadCompressed(Compressed(n) + rest) == Some((n, rest))
  {
    var bytes := Compressed(n) + rest;
    if n < 128 {
      assert bytes[1..] == rest;
    } else {
      ReadWrittenCompressed(n / 128, rest);
      assert bytes[1..] == Compressed(n / 128) + rest;
    }
  }

  // ----- reading and writing in place -----

  /** The bytes still to be read. */
  class ByteQueue {
    var contents: seq<Byte>

    constructor (bytes: seq<Byte>)
      ensures contents == bytes
    {
      contents := bytes;
    }

    method PopFront() returns (r: Option<Byte>)
      modifies this
      ensures old(contents) == [] ==> r == None && contents == []
      ensures old(contents) != [] ==> r == Some(old(contents)[0]) && contents == old(contents)[1..]
    {
      if contents == [] {
        return None;
      }
      r := Some(contents[0]);
      contents := contents[1..];
    }

    method ReadBinaryLine() returns (line: seq<Byte>)
      modifies this
      ensures (line, contents) == ReadLine(old(contents))
    {
      line := [];
      ghost var all := contents;
      assert [] + ReadLine(all).0 == ReadLine(all).0;
      while contents != []
        invariant ReadLine(all).0 == line + ReadLine(contents).0 && ReadLine(all).1 == ReadLine(contents).1
        decreases |contents|
      {
        ghost var before := contents;
        var c := PopFront();
        if c.value == NEWLINE {
          assert line + [] == line;
          return;
        }
        assert line + ReadLine(before).0 == line + [c.value] + ReadLine(contents).0;
        line := line + [c.value];
      }
      assert line + [] == line;
    }

    method ReadCompressedUint() returns (r: Option<nat>)
      modifies this
      ensures r == None <==> ReadCompressed(old(contents)) == None
      ensures r.Some? ==> ReadCompressed(old(contents)) == Some((r.value, contents))
    {
      var value: nat := 0;
      var scale: nat := 1;
      ghost var all := contents;
      while true
        invariant scale > 0
        invariant ReadCompressed(all) == match ReadCompressed(contents)
          case None => None
          case Some((high, rest)) => Some((value + scale * high, rest))
        decreases |contents|
      {
        ghost var before := contents;
        var c := PopFront();
        if c == None {
          return None;
        }
        var digit := c.value % 128;
        value := value + digit * scale;
        if c.value < 128 {
          return Some(value);
        }
        ContinueDigits(before, scale);
        scale := scale * 128;
      }
    }
  }

  lemma ContinueDigits(bytes: seq<Byte>, scale: nat)
    requires bytes != [] && bytes[0] >= 128
    ensures ReadCompressed(bytes[1..]).Some? ==>
      scale * ReadCompressed(bytes).value.0 ==
        (bytes[0] % 128) * scale + (scale * 128) * ReadCompressed(bytes[1..]).value.0
  {
    if ReadCompressed(bytes[1..]).Some? {
      var high := ReadCompressed(bytes[1..]).value.0;
      assert bytes[0] % 128 == bytes[0] - 128;
      Scaled(scale, bytes[0] - 128, high);
    }
  }

  lemma Scaled(s: int, d: int, h: int)
    ensures s * (d + 128 * h) == d * s + (s * 128) * h
  {
    assert s * (128 * h) == (s * 128) * h;
    assert s * (d + 128 * h) == s * d + s * (128 * h);
  }

  method WriteCompressedUint(contents: seq<Byte>, n: nat) returns (r: seq<Byte>)
    ensures r == contents + Compressed(n)
  {
    var value := n;
    r := contents;
    while true
      invariant contents + Compressed(n) == r + Compressed(value)
      decreases value
    {
      var byte: Byte := value % 128;
      var rest := value / 128;
      if rest != 0 {
        byte := byte + 128;
      }
      assert r + Compressed(value) == r + [byte] + (if rest == 0 then [] else Compressed(rest));
      r := r + [byte];
      value := rest;
      if rest == 0 {
        return;
      }
    }
  }
}
