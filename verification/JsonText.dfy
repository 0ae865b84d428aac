/** Events, errors and the lexical level of reader.h: white space, comments, literals, strings, numbers. */
module JsonText {
  import Utf8

  datatype Event =
    | Null | Bool(b: bool)
    | Int(i: int) | Uint(u: int) | Int64(i64: int) | Uint64(u64: int) | Double(literal: string)
    | Str(s: string) | Key(k: string)
    | StartObject | EndObject(members: nat) | StartArray | EndArray(elements: nat)

  datatype Error =
    | DocumentEmpty | DocumentRootNotSingular | ValueInvalid
    | ObjectMissName | ObjectMissColon | ObjectMissCommaOrCurlyBracket | ArrayMissCommaOrSquareBracket
    | StringUnicodeEscapeInvalidHex | StringUnicodeSurrogateInvalid | StringEscapeInvalid | StringMissQuotationMark
    | NumberTooBig | NumberMissFraction | NumberMissExponent
    | UnspecificSyntaxError

  /** The parse flags, and the one question about doubles the reader asks: has what was read so far overflowed? */
  datatype Flags = Flags(comments: bool, trailingCommas: bool, stopWhenDone: bool, huge: string -> bool)

  /** Outcome of scanning from some position: where it ended, or why it failed. */
  datatype Scan<T> = Ok(pos: nat, val: T) | Err(error: Error)

  const NUL: char := Utf8.NUL

  /** A stream delivers NUL at its end, and from an embedded NUL on. */
  function Peek(t: string, i: nat): char { if i < |t| then t[i] else NUL }

  // ---------- White space and comments ----------

  predicate Blank(c: char) { c == ' ' || c == '\n' || c == '\r' || c == '\t' }

  function Ws(t: string, i: nat): (j: nat)
    requires i <= |t|
    ensures i <= j <= |t| && !Blank(Peek(t, j))
    decreases |t| - i
  {
    if Blank(Peek(t, i)) then Ws(t, i + 1) else i
  }

  /** Past the end of a block comment, scanning from inside it. */
  function Block(t: string, i: nat): (r: Scan<()>)
    requires i <= |t|
    ensures r.Ok? ==> i < r.pos <= |t|
    decreases |t| - i
  {
    if Peek(t, i) == NUL then Err(UnspecificSyntaxError)
    else if Peek(t, i) == '*' && Peek(t, i + 1) == '/' then Ok(i + 2, ())
    else Block(t, i + 1)
  }

  /** Past the end of a line comment. */
  function Line(t: string, i: nat): (j: nat)
    requires i <= |t|
    ensures i <= j <= |t|
    decreases |t| - i
  {
    if Peek(t, i) == NUL then i else if Peek(t, i) == '\n' then i + 1 else Line(t, i + 1)
  }

  /** Past the end of a comment whose first slash is just before `i`. */
  function Comment(t: string, i: nat): (r: Scan<()>)
    requires i <= |t|
    ensures r.Ok? ==> i < r.pos <= |t|
  {
    if Peek(t, i) == '*' then Block(t, i + 1)
    else if Peek(t, i) == '/' then Ok(Line(t, i + 1), ())
    else Err(UnspecificSyntaxError)
  }

  function Skip(fl: Flags, t: string, i: nat): (r: Scan<()>)
    requires i <= |t|
    ensures r.Ok? ==> i <= r.pos <= |t| && !Blank(Peek(t, r.pos))
    decreases |t| - i
  {
    var j := Ws(t, i);
    if !fl.comments || Peek(t, j) != '/' then Ok(j, ())
    else
      var c := Comment(t, j + 1);
      if c.Err? then c else Skip(fl, t, c.pos)
  }

  // ---------- Literals ----------

  /** `word` stands at position `i`. */
  predicate Stands(t: string, i: nat, word: string)
  {
    forall k :: 0 <= k < |word| ==> Peek(t, i + k) == word[k]
  }

  function Literal(t: string, i: nat, word: string, e: Event): (r: Scan<Event>)
    requires |word| > 0 && forall k :: 0 <= k < |word| ==> word[k] != NUL
    ensures r.Ok? ==> i < r.pos <= |t|
  {
    if Stands(t, i, word) then assert Peek(t, i + (|word| - 1)) == word[|word| - 1] != NUL; Ok(i + |word|, e) else Err(ValueInvalid)
  }

  // ---------- Strings ----------

  predicate IsHex(c: char) { Utf8.HexDigit(c) >= 0 }

  function Hex4(t: string, i: nat): (r: Scan<int>)
    ensures r.Ok? ==> r.pos == i + 4 <= |t| && 0 <= r.val <= 0xFFFF
  {
    if IsHex(Peek(t, i)) && IsHex(Peek(t, i + 1)) && IsHex(Peek(t, i + 2)) && IsHex(Peek(t, i + 3)) then
      Ok(i + 4, ((Utf8.HexDigit(Peek(t, i)) * 16 + Utf8.HexDigit(Peek(t, i + 1))) * 16 + Utf8.HexDigit(Peek(t, i + 2))) * 16 + Utf8.HexDigit(Peek(t, i + 3)))
    else Err(StringUnicodeEscapeInvalidHex)
  }

  /** The character a one-letter escape stands for, or NUL when it is none. */
  function Escape(c: char): char
  {
    match c
    case '"' => '"'
    case '/' => '/'
    case '\\' => '\\'
    case 'b' => 8 as char
    case 'f' => 12 as char
    case 'n' => '\n'
    case 'r' => '\r'
    case 't' => '\t'
    case _ => NUL
  }

  /** The second escape of a surrogate pair. */
  function LowSurrogate(t: string, i: nat): (r: Scan<int>)
    ensures r.Ok? ==> i < r.pos <= |t| && 0xDC00 <= r.val <= 0xDFFF
  {
    if Peek(t, i) != '\\' || Peek(t, i + 1) != 'u' then Err(StringUnicodeSurrogateInvalid) else
    var l := Hex4(t, i + 2);
    if l.Err? then l else if l.val < 0xDC00 || l.val > 0xDFFF then Err(StringUnicodeSurrogateInvalid) else l
  }

  /** The code point of one `\uXXXX` escape, or of a surrogate pair of them, whose `u` is at `i`. */
  function UnicodePoint(t: string, i: nat): (r: Scan<int>)
    ensures r.Ok? ==> i < r.pos <= |t| && 0 <= r.val <= 0x10FFFF
  {
    var h := Hex4(t, i + 1);
    if h.Ok? && 0xD800 <= h.val <= 0xDBFF then
      var l := LowSurrogate(t, h.pos);
      if l.Err? then l else Ok(l.pos, (h.val - 0xD800) * 1024 + (l.val - 0xDC00) + 0x10000)
    else h
  }

  function UnicodeEscape(t: string, i: nat): (r: Scan<string>)
    ensures r.Ok? ==> i < r.pos <= |t|
  {
    var c := UnicodePoint(t, i);
    if c.Err? then Err(c.error) else Ok(c.pos, Utf8.Encode(c.val))
  }

  /** One escape, whose backslash is at `i`. */
  function EscapeSequence(t: string, i: nat): (r: Scan<string>)
    requires i < |t|
    ensures r.Ok? ==> i < r.pos <= |t|
  {
    var e := Peek(t, i + 1);
    if Escape(e) != NUL then Ok(i + 2, [Escape(e)])
    else if e == 'u' then UnicodeEscape(t, i + 1)
    else Err(StringEscapeInvalid)
  }

  /** The rest of a string, from inside its quotes. */
  function StrRest(t: string, i: nat): (r: Scan<string>)
    requires i <= |t|
    ensures r.Ok? ==> i < r.pos <= |t|
    decreases |t| - i
  {
    var c := Peek(t, i);
    if c == '\\' then
      var u := EscapeSequence(t, i);
      if u.Err? then u else Prefix(u.val, StrRest(t, u.pos))
    else if c == '"' then Ok(i + 1, "")
    else if c as int < 0x20 then if c == NUL then Err(StringMissQuotationMark) else Err(StringEscapeInvalid)
    else Prefix([c], StrRest(t, i + 1))
  }

  function Prefix(p: string, r: Scan<string>): Scan<string>
  {
    if r.Err? then r else Ok(r.pos, p + r.val)
  }

  // ---------- Numbers ----------

  predicate Digit(c: char) { '0' <= c <= '9' }

  function DigitVal(c: char): (v: int)
    requires Digit(c)
    ensures 0 <= v <= 9
  {
    c as int - '0' as int
  }

  /** The end of the run of digits starting at `i`. */
  function DigitsEnd(t: string, i: nat): (j: nat)
    ensures i <= j && (i < j ==> j <= |t|) && !Digit(Peek(t, j)) && forall k :: i <= k < j ==> Digit(Peek(t, k))
    decreases |t| - i
  {
    if Digit(Peek(t, i)) then DigitsEnd(t, i + 1) else i
  }

  /** The value of the decimal digits `i..j`. */
  function Dec(t: string, i: nat, j: nat): nat
    requires i <= j && forall k :: i <= k < j ==> Digit(Peek(t, k))
    decreases j
  {
    if i == j then 0 else Dec(t, i, j - 1) * 10 + DigitVal(Peek(t, j - 1))
  }

  const TWO31: int := 0x8000_0000
  const TWO32: int := 0x1_0000_0000
  const TWO63: int := 0x8000_0000_0000_0000
  const TWO64: int := 0x1_0000_0000_0000_0000

  /** The event for an integer literal, by the exact thresholds; None when only a double can hold it. */
  datatype Kind = Exact(e: Event) | Beyond

  function Classify(minus: bool, v: nat): Kind
  {
    var w: int := v;
    if minus then
      if v <= TWO31 then Exact(Int(-w)) else if v <= TWO63 then Exact(Int64(-w)) else Beyond
    else
      if v < TWO32 then Exact(Uint(v)) else if v < TWO64 then Exact(Uint64(v)) else Beyond
  }

  /** The integer part: `0`, or digits without a leading zero. */
  function IntPart(t: string, i: nat): (r: Scan<nat>)
    ensures r.Ok? ==> i < r.pos <= |t|
  {
    if Peek(t, i) == '0' then Ok(i + 1, 0)
    else if Digit(Peek(t, i)) then Ok(DigitsEnd(t, i), Dec(t, i, DigitsEnd(t, i)))
    else Err(ValueInvalid)
  }

  /** An optional fraction; the value says whether there was one. */
  function FracPart(t: string, i: nat): (r: Scan<bool>)
    requires i <= |t|
    ensures r.Ok? ==> i <= r.pos <= |t|
  {
    if Peek(t, i) != '.' then Ok(i, false)
    else if !Digit(Peek(t, i + 1)) then Err(NumberMissFraction)
    else Ok(DigitsEnd(t, i + 1), true)
  }

  function ExpPart(t: string, i: nat): (r: Scan<bool>)
    requires i <= |t|
    ensures r.Ok? ==> i <= r.pos <= |t|
  {
    if Peek(t, i) != 'e' && Peek(t, i) != 'E' then Ok(i, false) else
    var j := if Peek(t, i + 1) == '+' || Peek(t, i + 1) == '-' then i + 2 else i + 1;
    if !Digit(Peek(t, j)) then Err(NumberMissExponent) else Ok(DigitsEnd(t, j), true)
  }

  function Number(fl: Flags, t: string, i: nat): (r: Scan<Event>)
    requires i <= |t|
    ensures r.Ok? ==> i < r.pos <= |t|
  {
    var minus := Peek(t, i) == '-';
    var n := IntPart(t, if minus then i + 1 else i);
    if n.Err? then Err(n.error) else
    var k := Classify(minus, n.val);
    if k.Beyond? && fl.huge(t[i..n.pos]) then Err(NumberTooBig) else
    var f := FracPart(t, n.pos);
    if f.Err? then Err(f.error) else
    var x := ExpPart(t, f.pos);
    if x.Err? then Err(x.error)
    else if x.val && fl.huge(t[i..x.pos]) then Err(NumberTooBig)
    else Ok(x.pos, if f.val || x.val || k.Beyond? then Double(t[i..x.pos]) else k.e)
  }

  /** ParseValue on anything but an opening bracket. */
  function Scalar(fl: Flags, t: string, i: nat): (r: Scan<Event>)
    requires i <= |t|
    ensures r.Ok? ==> i < r.pos <= |t|
  {
    match Peek(t, i)
    case 'n' => Literal(t, i, "null", Null)
    case 't' => Literal(t, i, "true", Bool(true))
    case 'f' => Literal(t, i, "false", Bool(false))
    case '"' => (var s := StrRest(t, i + 1); if s.Err? then Err(s.error) else Ok(s.pos, Str(s.val)))
    case _ => Number(fl, t, i)
  }
}
