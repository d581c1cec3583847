/** Geohashes as text: printing them in base 32 and reading them back. */
module GeohashText {
  import opened Numbers
  import opened Geohashes

  const BASE32: string := "0123456789bcdefghjkmnpqrstuvwxyz"

  /** Thirty-two different ASCII characters. */
  ghost predicate Alphabet(symbols: string) {
    |symbols| == 32 &&
    (forall v {:trigger symbols[v]} :: 0 <= v < 32 ==> symbols[v] as int < 0x80) &&
    (forall v, w {:trigger symbols[v], symbols[w]} :: 0 <= v < w < 32 ==> symbols[v] != symbols[w])
  }

  lemma SymbolsAscend(v: nat)
    requires v < 31
    ensures BASE32[v] < BASE32[v + 1]
  {
  }

  lemma {:induction false} SymbolsAreDistinct(v: nat, w: nat)
    requires v < w < 32
    ensures BASE32[v] < BASE32[w]
  {
    SymbolsAscend(w - 1);
    if v < w - 1 { SymbolsAreDistinct(v, w - 1); }
  }

  lemma Base32IsAnAlphabet()
    ensures Alphabet(BASE32)
  {
    forall v, w | 0 <= v < w < 32
      ensures BASE32[v] != BASE32[w]
    {
      SymbolsAreDistinct(v, w);
    }
    forall v | 0 <= v < 32
      ensures BASE32[v] as int < 0x80
    {
      if v < 31 { SymbolsAreDistinct(v, 31); }
    }
  }

  /** The alphabet of geohashes: the ten digits, then the small letters in order without a, i, l and o. */
  lemma Base32IsTheGeohashAlphabet()
    ensures forall c: char :: c in BASE32 <==> '0' <= c <= '9' || ('b' <= c <= 'z' && c != 'i' && c != 'l' && c != 'o')
    ensures forall v, w :: 0 <= v < w < 32 ==> BASE32[v] < BASE32[w]
  {
    forall v, w | 0 <= v < w < 32
      ensures BASE32[v] < BASE32[w]
    {
      SymbolsAreDistinct(v, w);
    }
    DigitsThenLetters();
  }

  lemma DigitsThenLetters()
    ensures forall v {:trigger BASE32[v]} :: 0 <= v < 10 ==> BASE32[v] as int == '0' as int + v
    ensures forall v {:trigger BASE32[v]} :: 10 <= v < 17 ==> BASE32[v] as int == 'b' as int + v - 10
    ensures BASE32[17] == 'j' && BASE32[18] == 'k' && BASE32[19] == 'm' && BASE32[20] == 'n'
    ensures forall v {:trigger BASE32[v]} :: 21 <= v < 32 ==> BASE32[v] as int == 'p' as int + v - 21
  {
  }

  datatype ParseError = InvalidLength(length: nat) | InvalidChar(c: char)

  /** Bytes of a character in UTF-8. */
  function ByteWidth(c: char): (n: nat)
    ensures 1 <= n <= 4 && (n == 1 <==> c as int < 0x80)
    ensures (n <= 2 <==> c as int < 0x800) && (n <= 3 <==> c as int < 0x1_0000)
  {
    if c as int < 0x80 then 1 else if c as int < 0x800 then 2 else if c as int < 0x1_0000 then 3 else 4
  }

  function ByteLength(s: string): (n: nat)
    ensures n >= |s|
  {
    if s == [] then 0 else ByteLength(s[..|s| - 1]) + ByteWidth(s[|s| - 1])
  }

  /** Parsing compares only the low eight bits of a character. */
  function LowByte(c: char): int { c as int % 256 }

  function PositionFrom(symbols: string, c: char, i: nat): (r: Option<nat>)
    requires i <= |symbols|
    ensures r.Some? ==> r.value < |symbols| && symbols[r.value] as int == LowByte(c)
    ensures r.None? ==> forall v {:trigger symbols[v]} :: i <= v < |symbols| ==> symbols[v] as int != LowByte(c)
    decreases |symbols| - i
  {
    if i == |symbols| then None
    else if symbols[i] as int == LowByte(c) then Some(i)
    else PositionFrom(symbols, c, i + 1)
  }

  /** The value of a character: the first symbol equal to its low byte. */
  method Position(symbols: string, c: char) returns (r: Option<nat>)
    ensures r == PositionFrom(symbols, c, 0)
  {
    for i := 0 to |symbols|
      invariant PositionFrom(symbols, c, 0) == PositionFrom(symbols, c, i)
    {
      if symbols[i] as int == LowByte(c) { return Some(i); }
    }
    r := None;
  }

  /** The value of each character, or the first character that has none. */
  function Values(symbols: string, s: string): (r: Result<seq<nat>, char>)
    ensures r.Ok? ==> |r.value| == |s|
    ensures r.Ok? ==> forall i {:trigger r.value[i]} :: 0 <= i < |s| ==>
      PositionFrom(symbols, s[i], 0) == Some(r.value[i])
  {
    if s == [] then Ok([]) else
    match Values(symbols, s[..|s| - 1])
    case Err(c) => Err(c)
    case Ok(before) =>
      match PositionFrom(symbols, s[|s| - 1], 0)
      case None => Err(s[|s| - 1])
      case Some(v) => Ok(before + [v])
  }

  /** The fixed buffer that starts with these values. */
  function Fill(values: seq<nat>): (data: seq<nat>)
    requires |values| <= MAX_PRECISION
    ensures |data| == MAX_PRECISION
    ensures forall i {:trigger data[i]} :: 0 <= i < MAX_PRECISION ==> data[i] == if i < |values| then values[i] else 0
  {
    values + seq(MAX_PRECISION - |values|, _ => 0)
  }

  function Parsed(symbols: string, s: string): Result<Geohash, ParseError> {
    if ByteLength(s) == 0 || ByteLength(s) > MAX_PRECISION then Err(InvalidLength(ByteLength(s)))
    else match Values(symbols, s)
         case Err(c) => Err(InvalidChar(c))
         case Ok(values) => Ok(Geohash(Fill(values), ByteLength(s)))
  }

  /** Reading a text: its length in bytes, then its characters in turn. */
  method Parse(symbols: string, s: string) returns (r: Result<Geohash, ParseError>)
    ensures r == Parsed(symbols, s)
  {
    var precision := ByteLength(s);
    if precision == 0 || precision > MAX_PRECISION { return Err(InvalidLength(precision)); }
    var data := Fill([]);
    for i := 0 to |s|
      invariant Values(symbols, s[..i]).Ok? && data == Fill(Values(symbols, s[..i]).value)
    {
      ValuesStep(symbols, s, i);
      var idx := Position(symbols, s[i]);
      if idx.None? {
        FirstErrorStands(symbols, s, i + 1);
        return Err(InvalidChar(s[i]));
      }
      FillStep(Values(symbols, s[..i]).value, idx.value);
      data := data[i := idx.value];
    }
    assert s[..|s|] == s;
    r := Ok(Geohash(data, precision));
  }

  lemma ValuesStep(symbols: string, s: string, i: nat)
    requires i < |s| && Values(symbols, s[..i]).Ok?
    ensures var found := PositionFrom(symbols, s[i], 0);
      && (found.None? ==> Values(symbols, s[..i + 1]) == Err(s[i]))
      && (found.Some? ==> Values(symbols, s[..i + 1]) == Ok(Values(symbols, s[..i]).value + [found.value]))
  {
    assert s[..i + 1][..i] == s[..i];
  }

  lemma FillStep(values: seq<nat>, v: nat)
    requires |values| < MAX_PRECISION
    ensures Fill(values + [v]) == Fill(values)[|values| := v]
  {
  }

  lemma {:induction false} FirstErrorStands(symbols: string, s: string, n: nat)
    requires n <= |s| && Values(symbols, s[..n]).Err?
    ensures Values(symbols, s) == Values(symbols, s[..n])
    decreases |s|
  {
    if n < |s| {
      assert s[..|s| - 1][..n] == s[..n];
      FirstErrorStands(symbols, s[..|s| - 1], n);
    } else {
      assert s[..n] == s;
    }
  }

  /** What a hash prints as. */
  function Printed(symbols: string, g: Geohash): (s: string)
    requires |symbols| == 32 && g.Valid()
    ensures |s| == g.precision && forall i {:trigger s[i]} :: 0 <= i < |s| ==> s[i] == symbols[g.data[i]]
  {
    seq(g.precision, i requires 0 <= i < g.precision => symbols[g.data[i]])
  }

  /** Printing, a character at a time. */
  method Print(symbols: string, g: Geohash) returns (s: string)
    requires |symbols| == 32 && g.Valid()
    ensures s == Printed(symbols, g)
  {
    s := [];
    for i := 0 to g.precision
      invariant s == Printed(symbols, g)[..i]
    {
      s := s + [symbols[g.data[i]]];
    }
  }

  // ----- What is read -----

  ghost predicate Ascii(s: string) { forall i :: 0 <= i < |s| ==> s[i] as int < 0x80 }

  lemma {:induction false} AsciiLength(s: string)
    ensures ByteLength(s) == |s| <==> Ascii(s)
  {
    if s != [] {
      var n := |s| - 1;
      AsciiLength(s[..n]);
      assert Ascii(s) <==> Ascii(s[..n]) && s[n] as int < 0x80 by {
        assert forall i :: 0 <= i < n ==> s[..n][i] == s[i];
      }
    }
  }

  /** Every character's low byte is a symbol. */
  ghost predicate Readable(symbols: string, s: string) {
    forall i :: 0 <= i < |s| ==> PositionFrom(symbols, s[i], 0).Some?
  }

  lemma {:induction false} ReadableIff(symbols: string, s: string)
    ensures Values(symbols, s).Ok? <==> Readable(symbols, s)
  {
    if s != [] {
      var n := |s| - 1;
      ReadableIff(symbols, s[..n]);
      assert Readable(symbols, s) <==> Readable(symbols, s[..n]) && PositionFrom(symbols, s[n], 0).Some? by {
        assert forall i :: 0 <= i < n ==> s[..n][i] == s[i];
      }
    }
  }

  /** The error names the first character that is not a symbol. */
  lemma FailsAtTheFirst(symbols: string, s: string, i: nat)
    requires i < |s| && Readable(symbols, s[..i]) && PositionFrom(symbols, s[i], 0) == None
    ensures Values(symbols, s) == Err(s[i])
  {
    ReadableIff(symbols, s[..i]);
    ValuesStep(symbols, s, i);
    FirstErrorStands(symbols, s, i + 1);
  }

  /** A text is read exactly when it is 1 to 12 bytes long and every character's low byte is a symbol. */
  lemma ParsesIff(symbols: string, s: string)
    requires Alphabet(symbols)
    ensures Parsed(symbols, s).Ok? <==> (1 <= ByteLength(s) <= MAX_PRECISION && Readable(symbols, s))
    ensures Parsed(symbols, s).Ok? ==> Parsed(symbols, s).value.Valid()
  {
    ReadableIff(symbols, s);
    if Parsed(symbols, s).Ok? {
      var values := Values(symbols, s).value;
      forall i {:trigger values[i]} | 0 <= i < |s|
        ensures values[i] < 32
      {
        assert PositionFrom(symbols, s[i], 0) == Some(values[i]);
      }
    }
  }

  // ----- Round trips -----

  /** Looking a symbol up finds the value it stands for. */
  lemma PositionInvertsSymbol(symbols: string, v: nat)
    requires Alphabet(symbols) && v < 32
    ensures PositionFrom(symbols, symbols[v], 0) == Some(v)
  {
    var r := PositionFrom(symbols, symbols[v], 0);
    assert symbols[v] as int < 0x80;
    assert r.Some? && symbols[r.value] == symbols[v];
  }

  /** An ASCII character that has a value is that value's symbol. */
  lemma SymbolInvertsPosition(symbols: string, c: char, v: nat)
    requires c as int < 0x80 && PositionFrom(symbols, c, 0) == Some(v)
    ensures v < |symbols| && symbols[v] == c
  {
  }

  /** Reading a printed hash returns it. */
  lemma ParseInvertsPrint(symbols: string, g: Geohash)
    requires Alphabet(symbols) && g.Valid() && g.precision > 0
    ensures Parsed(symbols, Printed(symbols, g)) == Ok(g)
  {
    var s := Printed(symbols, g);
    forall i | 0 <= i < |s|
      ensures PositionFrom(symbols, s[i], 0) == Some(g.data[i]) && s[i] as int < 0x80
    {
      PositionInvertsSymbol(symbols, g.data[i]);
    }
    AsciiLength(s);
    ReadableIff(symbols, s);
    var values := Values(symbols, s).value;
    forall i {:trigger values[i]} | 0 <= i < |s|
      ensures values[i] == g.data[i]
    {
      assert PositionFrom(symbols, s[i], 0) == Some(values[i]);
    }
    assert Fill(values) == g.data;
  }

  /** Printing what was read gives the text back exactly when the text was ASCII. */
  lemma PrintInvertsParseIffAscii(symbols: string, s: string)
    requires Alphabet(symbols) && Parsed(symbols, s).Ok?
    ensures Parsed(symbols, s).value.Valid()
    ensures Printed(symbols, Parsed(symbols, s).value) == s <==> Ascii(s)
  {
    ParsesIff(symbols, s);
    if Ascii(s) {
      AsciiPrintsBack(symbols, s);
    } else {
      PrintIsAscii(symbols, Parsed(symbols, s).value);
    }
  }

  lemma PrintIsAscii(symbols: string, g: Geohash)
    requires Alphabet(symbols) && g.Valid()
    ensures Ascii(Printed(symbols, g))
  {
  }

  lemma AsciiPrintsBack(symbols: string, s: string)
    requires Alphabet(symbols) && Parsed(symbols, s).Ok? && Parsed(symbols, s).value.Valid() && Ascii(s)
    ensures Printed(symbols, Parsed(symbols, s).value) == s
  {
    AsciiLength(s);
    var values, g := Values(symbols, s).value, Parsed(symbols, s).value;
    var t := Printed(symbols, g);
    forall i {:trigger t[i]} | 0 <= i < |s|
      ensures t[i] == s[i]
    {
      assert g.data[i] == values[i];
      SymbolInvertsPosition(symbols, s[i], values[i]);
    }
    assert t == s;
  }

  /** One wide character whose low byte is the first symbol reads as that symbol twice. */
  lemma WideCharacterIsRead(symbols: string, c: char)
    requires Alphabet(symbols) && 0x80 <= c as int < 0x800 && LowByte(c) == symbols[0] as int
    ensures Parsed(symbols, [c]) == Ok(Geohash(Fill([]), 2))
    ensures Printed(symbols, Geohash(Fill([]), 2)) == [symbols[0], symbols[0]]
  {
    var s := [c];
    assert s[..0] == [] && s[..1] == s;
    ValuesStep(symbols, s, 0);
    assert PositionFrom(symbols, c, 0) == Some(0);
    var values := Values(symbols, s).value;
    assert values == [] + [0] && Fill(values) == Fill([]);
    assert ByteLength(s[..0]) == 0 && ByteLength(s) == 2;
  }

  /** Such a character exists: U+0130 has the low byte of the digit zero. */
  lemma DottedCapitalIReadsAsZeros()
    ensures Parsed(BASE32, ['\U{0130}']) == Ok(Geohash(Fill([]), 2))
  {
    Base32IsAnAlphabet();
    WideCharacterIsRead(BASE32, '\U{0130}');
  }
}
