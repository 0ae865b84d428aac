/** The two parsers of reader.h as they run: a cursor, a parse error, a state stack, and events sent. */
module JsonReader {
  import opened Options
  import opened JsonText
  import Utf8
  import opened JsonGrammar
  import JsonAgreement

  newtype uint32 = x: int | 0 <= x < 0x1_0000_0000
  newtype uint64 = x: int | 0 <= x < 0x1_0000_0000_0000_0000

  /** `~x + 1` in unsigned arithmetic, and the signed reading of the result. */
  function Negate32(x: uint32): uint32 { if x == 0 then 0 else 0xFFFF_FFFF - x + 1 }
  function Signed32(x: uint32): int { if x < 0x8000_0000 then x as int else x as int - 0x1_0000_0000 }
  function Negate64(x: uint64): uint64 { if x == 0 then 0 else 0xFFFF_FFFF_FFFF_FFFF - x + 1 }
  function Signed64(x: uint64): int { if x < 0x8000_0000_0000_0000 then x as int else x as int - 0x1_0000_0000_0000_0000 }

  class Reader {
    const text: string
    const fl: Flags
    var pos: nat
    var error: Option<Error>
    var ev: seq<Event>
    var stack: seq<Frame>

    constructor (t: string, f: Flags)
      ensures text == t && fl == f && pos == 0 && error == None && ev == [] && stack == []
    {
      text, fl, pos, error, ev, stack := t, f, 0, None, [], [];
    }

    /** Ready to go on: inside the text and no error so far. */
    predicate Ready()
      reads this
    {
      pos <= |text| && error == None
    }

    function Cur(): char
      reads this
    {
      Peek(text, pos)
    }

    /** The reader has done what outcome `o` says, having sent `ev0` before. */
    ghost predicate Did(o: Out, ev0: seq<Event>)
      reads this
    {
      && ev == ev0 + o.ev
      && if o.Done? then pos == o.pos && Ready() else error == Some(o.error)
    }

    /** The reader has scanned as `s` says. */
    ghost predicate Scanned<T>(s: Scan<T>)
      reads this
    {
      if s.Ok? then pos == s.pos && Ready() else error == Some(s.error)
    }

    method Consume(want: char) returns (ok: bool)
      requires Ready() && want != NUL
      modifies this`pos
      ensures ok == (Peek(text, old(pos)) == want) && pos == (if ok then old(pos) + 1 else old(pos)) && Ready()
    {
      ok := Cur() == want;
      if ok { pos := pos + 1; }
    }

    method SkipWhitespace()
      requires Ready()
      modifies this`pos
      ensures pos == Ws(text, old(pos)) && Ready()
    {
      while Blank(Cur())
        invariant Ready() && Ws(text, pos) == Ws(text, old(pos))
        decreases |text| - pos
      {
        pos := pos + 1;
      }
    }

    method SkipBlock()
      requires Ready()
      modifies this`pos, this`error
      ensures Scanned(Block(text, old(pos)))
    {
      while true
        invariant Ready() && Block(text, pos) == Block(text, old(pos))
        decreases |text| - pos
      {
        if Cur() == NUL {
          error := Some(UnspecificSyntaxError);
          return;
        }
        var star := Consume('*');
        if star {
          var slash := Consume('/');
          if slash { break; }
        } else {
          pos := pos + 1;
        }
      }
    }

    /** A comment, past its first slash. */
    method SkipComment()
      requires Ready()
      modifies this`pos, this`error
      ensures Scanned(Comment(text, old(pos)))
    {
      var star := Consume('*');
      if star {
        SkipBlock();
        return;
      }
      var slash := Consume('/');
      if slash {
        SkipLine();
      } else {
        error := Some(UnspecificSyntaxError);
      }
    }

    method SkipWhitespaceAndComments()
      requires Ready()
      modifies this`pos, this`error
      ensures Scanned(Skip(fl, text, old(pos)))
    {
      SkipWhitespace();
      if fl.comments {
        ghost var all := Skip(fl, text, old(pos));
        var slash := Consume('/');
        while slash
          invariant Ready() && all == if slash then PastComment(pos) else Ok(pos, ())
          decreases |text| - pos, slash
        {
          SkipComment();
          if error != None { return; }
          SkipWhitespace();
          slash := Consume('/');
        }
      }
    }

    /** What is left to skip when the first slash of a comment has been taken. */
    ghost function PastComment(i: nat): Scan<()>
      requires i <= |text|
    {
      var c := Comment(text, i);
      if c.Err? then c else Skip(fl, text, c.pos)
    }

    method SkipLine()
      requires Ready()
      modifies this`pos
      ensures pos == Line(text, old(pos)) && Ready()
    {
      while Cur() != NUL
        invariant Ready() && Line(text, pos) == Line(text, old(pos))
        decreases |text| - pos
      {
        var c := Cur();
        pos := pos + 1;
        if c == '\n' { return; }
      }
    }

    /** ParseNull, ParseTrue and ParseFalse: the first character is there, the rest must follow. */
    method ParseLiteral(word: string, e: Event)
      requires Ready() && word in {"null", "true", "false"} && Cur() == word[0]
      modifies this`pos, this`error, this`ev
      ensures var s := Literal(text, old(pos), word, e);
        Did(if s.Ok? then Done(s.pos, [s.val]) else Fail(s.error, []), old(ev))
    {
      pos := pos + 1;
      var k := 1;
      while k < |word|
        invariant 1 <= k <= |word| && Ready() && pos == old(pos) + k && ev == old(ev)
        invariant forall j :: 0 <= j < k ==> Peek(text, old(pos) + j) == word[j]
      {
        var ok := Consume(word[k]);
        if !ok {
          assert !Stands(text, old(pos), word) by { assert Peek(text, old(pos) + k) != word[k]; }
          error := Some(ValueInvalid);
          return;
        }
        k := k + 1;
      }
      ev := ev + [e];
    }

    /** ParseHex4: four hexadecimal digits. */
    method ParseHex4() returns (codepoint: int)
      requires Ready()
      modifies this`pos, this`error
      ensures Scanned(Hex4(text, old(pos))) && (error == None ==> codepoint == Hex4(text, old(pos)).val)
    {
      codepoint := 0;
      ghost var p := pos;
      var i := 0;
      while i < 4
        invariant 0 <= i <= 4 && Ready() && pos == p + i
        invariant i > 0 ==> IsHex(Peek(text, p))
        invariant i > 1 ==> IsHex(Peek(text, p + 1))
        invariant i > 2 ==> IsHex(Peek(text, p + 2))
        invariant i > 3 ==> IsHex(Peek(text, p + 3))
        invariant codepoint == HexVal(p, i)
      {
        var c := Cur();
        if Utf8.HexDigit(c) < 0 {
          assert !IsHex(Peek(text, p + i));
          error := Some(StringUnicodeEscapeInvalidHex);
          return;
        }
        codepoint := codepoint * 16 + Utf8.HexDigit(c);
        pos := pos + 1;
        i := i + 1;
      }
      HexValFour(p);
    }

    lemma HexValFour(i: nat)
      ensures HexVal(i, 4) == ((Utf8.HexDigit(Peek(text, i)) * 16 + Utf8.HexDigit(Peek(text, i + 1))) * 16 + Utf8.HexDigit(Peek(text, i + 2))) * 16
                              + Utf8.HexDigit(Peek(text, i + 3))
    {
      assert HexVal(i, 1) == Utf8.HexDigit(Peek(text, i));
      assert HexVal(i, 2) == HexVal(i, 1) * 16 + Utf8.HexDigit(Peek(text, i + 1));
      assert HexVal(i, 3) == HexVal(i, 2) * 16 + Utf8.HexDigit(Peek(text, i + 2));
    }

    ghost function HexVal(i: nat, n: nat): int
    {
      if n == 0 then 0 else HexVal(i, n - 1) * 16 + Utf8.HexDigit(Peek(text, i + n - 1))
    }

    /** The second half of a surrogate pair. */
    method ParseLowSurrogate() returns (codepoint2: int)
      requires Ready()
      modifies this`pos, this`error
      ensures Scanned(LowSurrogate(text, old(pos))) && (error == None ==> codepoint2 == LowSurrogate(text, old(pos)).val)
    {
      codepoint2 := 0;
      var ok := Consume('\\');
      if ok { ok := Consume('u'); }
      if !ok {
        error := Some(StringUnicodeSurrogateInvalid);
        return;
      }
      codepoint2 := ParseHex4();
      if error != None { return; }
      if codepoint2 < 0xDC00 || codepoint2 > 0xDFFF {
        error := Some(StringUnicodeSurrogateInvalid);
      }
    }

    /** The `\\u` branch of ParseStringToStream, from the `u` on. */
    method ParseUnicode() returns (units: string)
      requires Ready() && Cur() == 'u'
      modifies this`pos, this`error
      ensures Scanned(UnicodeEscape(text, old(pos))) && (error == None ==> units == UnicodeEscape(text, old(pos)).val)
    {
      units := "";
      var codepoint := ParseCodePoint();
      if error != None { return; }
      units := Utf8.Encode(codepoint);
    }

    method ParseCodePoint() returns (codepoint: int)
      requires Ready() && Cur() == 'u'
      modifies this`pos, this`error
      ensures Scanned(UnicodePoint(text, old(pos))) && (error == None ==> codepoint == UnicodePoint(text, old(pos)).val)
    {
      pos := pos + 1;
      codepoint := ParseHex4();
      if error != None { return; }
      if 0xD800 <= codepoint <= 0xDBFF {
        var codepoint2 := ParseLowSurrogate();
        if error != None { return; }
        codepoint := (codepoint - 0xD800) * 1024 + (codepoint2 - 0xDC00) + 0x10000;
      }
    }

    /** The escape branch of ParseStringToStream. */
    method ParseEscape() returns (units: string)
      requires Ready() && Cur() == '\\'
      modifies this`pos, this`error
      ensures Scanned(EscapeSequence(text, old(pos))) && (error == None ==> units == EscapeSequence(text, old(pos)).val)
    {
      units := "";
      pos := pos + 1;
      var e := Cur();
      if Escape(e) != NUL {
        pos := pos + 1;
        units := [Escape(e)];
      } else if e == 'u' {
        units := ParseUnicode();
      } else {
        error := Some(StringEscapeInvalid);
      }
    }

    /** ParseStringToStream, from inside the quotes. */
    method ParseStringToStream() returns (os: string)
      requires Ready()
      modifies this`pos, this`error
      ensures Scanned(StrRest(text, old(pos))) && (error == None ==> os == StrRest(text, old(pos)).val)
    {
      os := "";
      assert StrRest(text, pos).Ok? ==> "" + StrRest(text, pos).val == StrRest(text, pos).val;
      while true
        invariant Ready() && StrRest(text, old(pos)) == Prefix(os, StrRest(text, pos))
        decreases |text| - pos
      {
        var c := Cur();
        if c == '\\' {
          var units := ParseEscape();
          if error != None { return; }
          Regroup(os, units, StrRest(text, pos));
          os := os + units;
        } else if c == '"' {
          pos := pos + 1;
          assert os + "" == os;
          return;
        } else if c as int < 0x20 {
          error := Some(if c == NUL then StringMissQuotationMark else StringEscapeInvalid);
          return;
        } else {
          pos := pos + 1;
          Regroup(os, [c], StrRest(text, pos));
          os := os + [c];
        }
      }
    }

    lemma Regroup(a: string, b: string, r: Scan<string>)
      ensures Prefix(a, Prefix(b, r)) == Prefix(a + b, r)
    {
      if r.Ok? { assert a + (b + r.val) == (a + b) + r.val; }
    }

    method ParseString(isKey: bool)
      requires Ready() && Cur() == '"'
      modifies this`pos, this`error, this`ev
      ensures var s := StrRest(text, old(pos) + 1);
        Did(if s.Err? then Fail(s.error, []) else Done(s.pos, [if isKey then Key(s.val) else Str(s.val)]), old(ev))
    {
      pos := pos + 1;
      var str := ParseStringToStream();
      if error != None { return; }
      ev := ev + [if isKey then Key(str) else Str(str)];
    }

    // ---------- Numbers ----------

    lemma {:induction false} DecMono(i: nat, j: nat, k: nat)
      requires i <= j <= k && forall x :: i <= x < k ==> Digit(Peek(text, x))
      ensures Dec(text, i, j) <= Dec(text, i, k)
      decreases k
    {
      if j < k { DecMono(i, j, k - 1); }
    }

    /** All of `j..p` are digits. */
    ghost predicate DigitRun(j: nat, p: nat)
    {
      j <= p <= |text| && forall x :: j <= x < p ==> Digit(Peek(text, x))
    }

    lemma {:induction false} RunEnds(j: nat, p: nat)
      requires DigitRun(j, p)
      ensures DigitsEnd(text, j) == DigitsEnd(text, p)
      decreases p - j
    {
      if j < p { RunEnds(j + 1, p); }
    }

    method TakeDigit() returns (v: int)
      requires Ready() && Digit(Cur())
      modifies this`pos
      ensures v == DigitVal(Peek(text, old(pos))) && 0 <= v <= 9 && pos == old(pos) + 1 && Ready()
    {
      v := DigitVal(Cur());
      pos := pos + 1;
    }

    method TakeDigits()
      requires Ready()
      modifies this`pos
      ensures pos == DigitsEnd(text, old(pos)) && Ready()
    {
      while Digit(Cur())
        invariant Ready() && DigitsEnd(text, pos) == DigitsEnd(text, old(pos))
        decreases |text| - pos
      {
        pos := pos + 1;
      }
    }

    /** The 32-bit accumulation loop: `limit` is 214748364 after a minus sign, else 429496729, and `last` the
        largest digit that may follow it. Stops at the end of the digits, or where 32 bits no longer do. */
    method Digits32(limit: uint32, last: char, ghost j: nat, start: uint32) returns (i: uint32, use64bit: bool)
      requires Ready() && j < pos && DigitRun(j, pos) && start as int == Dec(text, j, pos) && start <= 9
      requires (limit == 214748364 && last == '8') || (limit == 429496729 && last == '5')
      modifies this`pos
      ensures Ready() && old(pos) <= pos && DigitRun(j, pos) && i as int == Dec(text, j, pos) && use64bit == Digit(Cur())
      ensures var top := if last == '8' then TWO31 else TWO32 - 1;
        Dec(text, j, pos) <= top && (use64bit ==> Dec(text, j, pos + 1) > top)
    {
      i, use64bit := start, false;
      while Digit(Cur())
        invariant Ready() && old(pos) <= pos && DigitRun(j, pos) && i as int == Dec(text, j, pos) && !use64bit
        invariant i as int <= (if last == '8' then TWO31 else TWO32 - 1)
        decreases |text| - pos
      {
        if i >= limit && (i != limit || Cur() > last) {
          use64bit := true;
          break;
        }
        var v := TakeDigit();
        i := i * 10 + v as uint32;
      }
    }

    /** The 64-bit accumulation loop; past it only a double is left. */
    method Digits64(limit: uint64, last: char, ghost j: nat, start: uint64) returns (i64: uint64, useDouble: bool)
      requires Ready() && j < pos && DigitRun(j, pos) && start as int == Dec(text, j, pos) && start < 0x1_0000_0000
      requires (limit == 0x0CCC_CCCC_CCCC_CCCC && last == '8') || (limit == 0x1999_9999_9999_9999 && last == '5')
      modifies this`pos
      ensures Ready() && old(pos) <= pos && DigitRun(j, pos) && i64 as int == Dec(text, j, pos) && useDouble == Digit(Cur())
      ensures var top := if last == '8' then TWO63 else TWO64 - 1;
        Dec(text, j, pos) <= top && (useDouble ==> Dec(text, j, pos + 1) > top)
    {
      i64, useDouble := start, false;
      while Digit(Cur())
        invariant Ready() && old(pos) <= pos && DigitRun(j, pos) && i64 as int == Dec(text, j, pos) && !useDouble
        invariant i64 as int <= (if last == '8' then TWO63 else TWO64 - 1)
        decreases |text| - pos
      {
        if i64 >= limit && (i64 != limit || Cur() > last) {
          useDouble := true;
          break;
        }
        var v := TakeDigit();
        i64 := i64 * 10 + v as uint64;
      }
    }

    /** The integer part of ParseNumber: its event when 64 bits hold it, always with the exact value. */
    method ParseIntPart(minus: bool) returns (kind: Kind)
      requires Ready()
      modifies this`pos, this`error
      ensures Scanned(IntPart(text, old(pos)))
      ensures error == None ==> kind == Classify(minus, IntPart(text, old(pos)).val)
    {
      ghost var j := pos;
      kind := Beyond;
      if Cur() == '0' {
        pos := pos + 1;
        return if minus then Exact(Int(Signed32(Negate32(0)))) else Exact(Uint(0));
      }
      if !Digit(Cur()) {
        error := Some(ValueInvalid);
        return;
      }
      var v := TakeDigit();
      assert Dec(text, j, j) == 0;
      var i, use64bit := Digits32(if minus then 214748364 else 429496729, if minus then '8' else '5', j, v as uint32);
      if !use64bit {
        RunEnds(j, pos);
        return if minus then Exact(Int(Signed32(Negate32(i)))) else Exact(Uint(i as int));
      }
      kind := ParseWideInt(minus, i, j);
    }

    lemma WideKind(minus: bool, v: uint64)
      requires if minus then TWO31 < v as int <= TWO63 else TWO32 <= v as int
      ensures Classify(minus, v as nat) == if minus then Exact(Int64(Signed64(Negate64(v)))) else Exact(Uint64(v as int))
    {
    }

    /** On from where 32 bits no longer do. */
    method ParseWideInt(minus: bool, i: uint32, ghost j: nat) returns (kind: Kind)
      requires Ready() && j < pos && DigitRun(j, pos) && i as int == Dec(text, j, pos) && Digit(Cur())
      requires Dec(text, j, pos + 1) > if minus then TWO31 else TWO32 - 1
      modifies this`pos
      ensures Ready() && pos == DigitsEnd(text, j) && kind == Classify(minus, Dec(text, j, DigitsEnd(text, j)))
    {
      ghost var p := pos;
      var limit: uint64 := if minus then 0x0CCC_CCCC_CCCC_CCCC else 0x1999_9999_9999_9999;
      var i64, useDouble := Digits64(limit, if minus then '8' else '5', j, i as uint64);
      RunEnds(j, pos);
      RunEnds(j, p);
      DecMono(j, p + 1, DigitsEnd(text, j));
      if useDouble {
        DecMono(j, pos + 1, DigitsEnd(text, j));
        TakeDigits();
        return Beyond;
      }
      WideKind(minus, i64);
      return if minus then Exact(Int64(Signed64(Negate64(i64)))) else Exact(Uint64(i64 as int));
    }

    method ParseFraction() returns (found: bool)
      requires Ready()
      modifies this`pos, this`error
      ensures Scanned(FracPart(text, old(pos))) && (error == None ==> found == FracPart(text, old(pos)).val)
    {
      found := Consume('.');
      if found {
        if !Digit(Cur()) {
          error := Some(NumberMissFraction);
          return;
        }
        TakeDigits();
      }
    }

    method ParseExponent() returns (found: bool)
      requires Ready()
      modifies this`pos, this`error
      ensures Scanned(ExpPart(text, old(pos))) && (error == None ==> found == ExpPart(text, old(pos)).val)
    {
      found := Consume('e');
      if !found { found := Consume('E'); }
      if found {
        var sign := Consume('+');
        if !sign { sign := Consume('-'); }
        if !Digit(Cur()) {
          error := Some(NumberMissExponent);
          return;
        }
        TakeDigits();
      }
    }

    method ParseNumber()
      requires Ready()
      modifies this`pos, this`error, this`ev
      ensures var s := Number(fl, text, old(pos));
        Did(if s.Err? then Fail(s.error, []) else Done(s.pos, [s.val]), old(ev))
    {
      var startOffset := pos;
      var minus := Consume('-');
      var kind := ParseIntPart(minus);
      if error != None { return; }
      if kind.Beyond? && fl.huge(text[startOffset..pos]) {
        error := Some(NumberTooBig);
        return;
      }
      var frac := ParseFraction();
      if error != None { return; }
      var exp := ParseExponent();
      if error != None { return; }
      if exp && fl.huge(text[startOffset..pos]) {
        error := Some(NumberTooBig);
        return;
      }
      ev := ev + [if frac || exp || kind.Beyond? then Double(text[startOffset..pos]) else kind.e];
    }

    // ---------- Recursive descent ----------

    /** ParseValue */
    method ParseValue()
      requires Ready()
      modifies this`pos, this`error, this`ev
      ensures Did(Value(fl, text, old(pos)), old(ev))
      decreases |text| - pos, 1
    {
      match Cur() {
        case 'n' => ParseLiteral("null", Null);
        case 't' => ParseLiteral("true", Bool(true));
        case 'f' => ParseLiteral("false", Bool(false));
        case '"' => ParseString(false);
        case '{' => ParseObject();
        case '[' => ParseArray();
        case _ => ParseNumber();
      }
    }

    lemma LeadNothing(o: Out)
      ensures Lead([], o) == o
    {
      assert [] + o.ev == o.ev;
    }

    lemma LeadLead(a: seq<Event>, b: seq<Event>, o: Out)
      ensures Lead(a, Lead(b, o)) == Lead(a + b, o)
    {
      assert a + (b + o.ev) == (a + b) + o.ev;
    }

    lemma LeadNext(whole: Out, ev0: seq<Event>, d: seq<Event>, step: seq<Event>, o: Out, o': Out)
      requires whole == Lead(d, o) && o == Lead(step, o')
      ensures whole == Lead(d + step, o') && (ev0 + d) + step == ev0 + (d + step)
    {
      LeadLead(d, step, o');
    }

    lemma DidLead(whole: Out, rest: Out, ev0: seq<Event>, d: seq<Event>)
      requires whole == Lead(d, rest) && Did(rest, ev0 + d)
      ensures Did(whole, ev0)
    {
      assert (ev0 + d) + rest.ev == ev0 + (d + rest.ev);
    }

    // One turn of the container loops: `step` are the events sent; `more` when there is a further turn.

    method ParseElement(n: nat) returns (more: bool, ghost step: seq<Event>)
      requires Ready()
      modifies this`pos, this`error, this`ev
      ensures if more then Ready() && old(pos) < pos && ev == old(ev) + step
                && Elements(fl, text, old(pos), n) == Lead(step, Elements(fl, text, pos, n + 1))
              else Did(Elements(fl, text, old(pos), n), old(ev))
      decreases |text| - pos, 5
    {
      ParseValue();
      more := false;
      step := Value(fl, text, old(pos)).ev;
      if error != None { return; }
      ghost var p, ev1 := pos, ev;
      more := AfterElementStep(n + 1);
      if !more { DidLead(Elements(fl, text, old(pos), n), AfterElement(fl, text, p, n + 1), old(ev), step); }
    }

    method AfterElementStep(n: nat) returns (more: bool)
      requires Ready()
      modifies this`pos, this`error, this`ev
      ensures if more then Ready() && old(pos) < pos && ev == old(ev) && AfterElement(fl, text, old(pos), n) == Elements(fl, text, pos, n)
              else Did(AfterElement(fl, text, old(pos), n), old(ev))
    {
      SkipWhitespaceAndComments();
      more := false;
      assert ev + [] == ev;
      if error != None { return; }
      var comma := Consume(',');
      if comma {
        SkipWhitespaceAndComments();
        if error != None { return; }
        if fl.trailingCommas && Cur() == ']' {
          ev := ev + [EndArray(n)];
          pos := pos + 1;
          return;
        }
        return true;
      }
      var close := Consume(']');
      if close {
        ev := ev + [EndArray(n)];
      } else {
        error := Some(ArrayMissCommaOrSquareBracket);
      }
    }

    method ParseMember(n: nat) returns (more: bool, ghost step: seq<Event>)
      requires Ready()
      modifies this`pos, this`error, this`ev
      ensures if more then Ready() && old(pos) < pos && ev == old(ev) + step
                && Members(fl, text, old(pos), n) == Lead(step, Members(fl, text, pos, n + 1))
              else Did(Members(fl, text, old(pos), n), old(ev))
      decreases |text| - pos, 5
    {
      more, step := false, [];
      assert ev + [] == ev;
      if Cur() != '"' {
        error := Some(ObjectMissName);
        return;
      }
      ghost var k := StrRest(text, pos + 1);
      ParseString(true);
      if error != None { return; }
      ghost var key, p := [Key(k.val)], pos;
      assert Members(fl, text, old(pos), n) == Lead(key, AfterKey(fl, text, p, n)) && ev == old(ev) + key;
      ghost var step1;
      more, step1 := MemberRest(n);
      step := key + step1;
      if more {
        LeadLead(key, step1, Members(fl, text, pos, n + 1));
        assert (old(ev) + key) + step1 == old(ev) + step;
      } else {
        DidLead(Members(fl, text, old(pos), n), AfterKey(fl, text, p, n), old(ev), key);
      }
    }

    method MemberRest(n: nat) returns (more: bool, ghost step: seq<Event>)
      requires Ready()
      modifies this`pos, this`error, this`ev
      ensures if more then Ready() && old(pos) < pos && ev == old(ev) + step
                && AfterKey(fl, text, old(pos), n) == Lead(step, Members(fl, text, pos, n + 1))
              else Did(AfterKey(fl, text, old(pos), n), old(ev))
      decreases |text| - pos, 7
    {
      more, step := false, [];
      assert ev + [] == ev;
      SkipWhitespaceAndComments();
      if error != None { return; }
      var colon := Consume(':');
      if !colon {
        error := Some(ObjectMissColon);
        return;
      }
      ghost var q := pos;
      assert AfterKey(fl, text, old(pos), n) == AfterColon(fl, text, q, n);
      SkipWhitespaceAndComments();
      if error != None { return; }
      ghost var v := Value(fl, text, pos);
      ParseValue();
      if error != None { return; }
      step := v.ev;
      ghost var p := pos;
      more := AfterMemberStep(n + 1);
      if !more { DidLead(AfterKey(fl, text, old(pos), n), AfterMember(fl, text, p, n + 1), old(ev), step); }
    }

    method AfterMemberStep(n: nat) returns (more: bool)
      requires Ready()
      modifies this`pos, this`error, this`ev
      ensures if more then Ready() && old(pos) < pos && ev == old(ev) && AfterMember(fl, text, old(pos), n) == Members(fl, text, pos, n)
              else Did(AfterMember(fl, text, old(pos), n), old(ev))
    {
      SkipWhitespaceAndComments();
      more := false;
      assert ev + [] == ev;
      if error != None { return; }
      match Cur() {
        case ',' =>
          pos := pos + 1;
          SkipWhitespaceAndComments();
          if error != None { return; }
          if fl.trailingCommas && Cur() == '}' {
            ev := ev + [EndObject(n)];
            pos := pos + 1;
            return;
          }
          more := true;
        case '}' =>
          pos := pos + 1;
          ev := ev + [EndObject(n)];
        case _ =>
          error := Some(ObjectMissCommaOrCurlyBracket);
      }
    }

    /** ParseObject */
    method ParseObject()
      requires Ready() && Cur() == '{'
      modifies this`pos, this`error, this`ev
      ensures Did(Value(fl, text, old(pos)), old(ev))
      decreases |text| - pos, 0
    {
      ghost var ev0 := ev;
      pos := pos + 1;
      ev := ev + [StartObject];
      ParseObjectBody();
      assert ev0 + ([StartObject] + ObjectBody(fl, text, old(pos) + 1).ev) == (ev0 + [StartObject]) + ObjectBody(fl, text, old(pos) + 1).ev;
    }

    method ParseObjectBody()
      requires Ready()
      modifies this`pos, this`error, this`ev
      ensures Did(ObjectBody(fl, text, old(pos)), old(ev))
      decreases |text| - pos, 7
    {
      SkipWhitespaceAndComments();
      assert ev + [] == ev;
      if error != None { return; }
      var close := Consume('}');
      if close {
        ev := ev + [EndObject(0)];
        return;
      }
      ParseMembers();
    }

    /** The loop over the members. */
    method ParseMembers()
      requires Ready()
      modifies this`pos, this`error, this`ev
      ensures Did(Members(fl, text, old(pos), 0), old(ev))
      decreases |text| - pos, 6
    {
      var count: nat := 0;
      var more := true;
      ghost var done: seq<Event> := [];
      ghost var whole := Members(fl, text, pos, 0);
      LeadNothing(whole);
      assert ev + [] == ev;
      while more
        invariant if more then Ready() && old(pos) <= pos && ev == old(ev) + done && whole == Lead(done, Members(fl, text, pos, count))
                  else Did(whole, old(ev))
        decreases if more then |text| - pos else -1
      {
        ghost var p, d1 := pos, done;
        ghost var step;
        more, step := ParseMember(count);
        if more {
          done := d1 + step;
          LeadNext(whole, old(ev), d1, step, Members(fl, text, p, count), Members(fl, text, pos, count + 1));
        } else {
          DidLead(whole, Members(fl, text, p, count), old(ev), d1);
        }
        count := count + 1;
      }
    }

    /** ParseArray */
    method ParseArray()
      requires Ready() && Cur() == '['
      modifies this`pos, this`error, this`ev
      ensures Did(Value(fl, text, old(pos)), old(ev))
      decreases |text| - pos, 0
    {
      ghost var ev0 := ev;
      pos := pos + 1;
      ev := ev + [StartArray];
      ParseArrayBody();
      assert ev0 + ([StartArray] + ArrayBody(fl, text, old(pos) + 1).ev) == (ev0 + [StartArray]) + ArrayBody(fl, text, old(pos) + 1).ev;
    }

    method ParseArrayBody()
      requires Ready()
      modifies this`pos, this`error, this`ev
      ensures Did(ArrayBody(fl, text, old(pos)), old(ev))
      decreases |text| - pos, 7
    {
      SkipWhitespaceAndComments();
      assert ev + [] == ev;
      if error != None { return; }
      var close := Consume(']');
      if close {
        ev := ev + [EndArray(0)];
        return;
      }
      ParseElements();
    }

    /** The loop over the elements. */
    method ParseElements()
      requires Ready()
      modifies this`pos, this`error, this`ev
      ensures Did(Elements(fl, text, old(pos), 0), old(ev))
      decreases |text| - pos, 6
    {
      var count: nat := 0;
      var more := true;
      ghost var done: seq<Event> := [];
      ghost var whole := Elements(fl, text, pos, 0);
      LeadNothing(whole);
      assert ev + [] == ev;
      while more
        invariant if more then Ready() && old(pos) <= pos && ev == old(ev) + done && whole == Lead(done, Elements(fl, text, pos, count))
                  else Did(whole, old(ev))
        decreases if more then |text| - pos else -1
      {
        ghost var p, d1 := pos, done;
        ghost var step;
        more, step := ParseElement(count);
        if more {
          done := d1 + step;
          LeadNext(whole, old(ev), d1, step, Elements(fl, text, p, count), Elements(fl, text, pos, count + 1));
        } else {
          DidLead(whole, Elements(fl, text, p, count), old(ev), d1);
        }
        count := count + 1;
      }
    }

    /** The recursive Parse of a whole text. */
    method Parse()
      requires Ready() && pos == 0 && ev == []
      modifies this`pos, this`error, this`ev
      ensures Did(Recursive(fl, text), [])
    {
      SkipWhitespaceAndComments();
      if error != None { return; }
      if Cur() == NUL {
        error := Some(DocumentEmpty);
        return;
      }
      ParseValue();
      if error != None { return; }
      if !fl.stopWhenDone {
        SkipWhitespaceAndComments();
        if error != None { return; }
        if Cur() != NUL { error := Some(DocumentRootNotSingular); }
      }
    }

    // ---------- The iterative parser ----------

    ghost function Now(s: State): Conf
      reads this
    {
      Conf(s, stack, pos, ev)
    }

    /** What the table's prediction for the character `c` says of it. */
    static predicate Leads(src: State, dst: State, c: char)
    {
      && Follows(src, dst) && (dst == MemberKey ==> c == '"')
      && (dst == MemberValue || dst == Element || dst == ValueState ==> c != '{' && c != '[')
    }

    static lemma PredictLeads(src: State, c: char)
      ensures Leads(src, Predict(src, Tokenize(c)), c)
    {
    }

    /** The scalar cases of Transit, "must be non-compound value". */
    method TransitScalar(src: State, dst: State, ghost c: Conf) returns (d: State)
      requires Ready() && c == Now(src) && Framed(c) && pos < |text| && Leads(src, dst, Cur())
      requires dst == MemberValue || dst == Element || dst == ValueState
      modifies this`pos, this`error, this`ev
      ensures var r := Read(fl, text, c, if dst == ValueState then FinishState else dst);
        if r.Next? then Ready() && Now(d) == r.c else d == ErrorState && error == Some(r.error) && ev == old(ev)
    {
      assert Value(fl, text, pos) == (var v := Scalar(fl, text, pos); if v.Err? then Fail(v.error, []) else Done(v.pos, [v.val]));
      assert ev + [] == ev;
      ParseValue();
      d := if error != None then ErrorState else if dst == ValueState then FinishState else dst;
    }

    /** The closing cases of Transit: pop the count and the state to return to. */
    method TransitFinish(src: State, dst: State, ghost c: Conf) returns (d: State)
      requires Ready() && c == Now(src) && Framed(c) && c.stack != [] && pos < |text| && (dst == ObjectFinish || dst == ArrayFinish)
      modifies this`pos, this`error, this`ev, this`stack
      ensures
        if !fl.trailingCommas && (src == MemberDelimiter || src == ElementDelimiter) then
          d == ErrorState && error == Some(if dst == ObjectFinish then ObjectMissName else ValueInvalid) && ev == old(ev)
        else Ready() && Now(d) == Closed(c, dst == ObjectFinish, src == MemberValue || src == Element)
    {
      if !fl.trailingCommas && (src == MemberDelimiter || src == ElementDelimiter) {
        error := Some(if dst == ObjectFinish then ObjectMissName else ValueInvalid);
        return ErrorState;
      }
      var f := stack[|stack| - 1];
      var n := if src == MemberValue || src == Element then f.count + 1 else f.count;
      stack := stack[..|stack| - 1];
      d := if f.ret == StartState then FinishState else f.ret;
      ev := ev + [if dst == ObjectFinish then EndObject(n) else EndArray(n)];
      pos := pos + 1;
    }

    /** The opening cases of Transit: push the state to return to and a zero count. */
    method TransitInitial(src: State, dst: State, ghost c: Conf) returns (d: State)
      requires Ready() && c == Now(src) && Framed(c) && AwaitsValue(src) && pos < |text| && (dst == ObjectInitial || dst == ArrayInitial)
      modifies this`pos, this`ev, this`stack
      ensures Ready() && Now(d) == Opened(c, dst, if dst == ObjectInitial then StartObject else StartArray)
    {
      stack := stack + [Frame(Return(src), 0)];
      ev := ev + [if dst == ObjectInitial then StartObject else StartArray];
      pos := pos + 1;
      d := dst;
    }

    /** The name of a member. */
    method TransitKey(dst: State, ghost c: Conf) returns (d: State)
      requires Ready() && c == Now(c.state) && Framed(c) && c.stack != [] && pos < |text| && dst == MemberKey && Cur() == '"'
      modifies this`pos, this`error, this`ev
      ensures var k := StrRest(text, c.pos + 1);
        if k.Ok? then Ready() && Now(d) == Along(c, dst, k.pos, c.ev + [Key(k.val)])
        else d == ErrorState && error == Some(k.error) && ev == old(ev)
    {
      assert ev + [] == ev;
      ParseString(true);
      d := if error != None then ErrorState else dst;
    }

    /** The delimiting cases of Transit: one more member or element. */
    method TransitDelimiter(dst: State, ghost c: Conf) returns (d: State)
      requires Ready() && c == Now(c.state) && Framed(c) && c.stack != [] && pos < |text| && (dst == MemberDelimiter || dst == ElementDelimiter)
      modifies this`pos, this`stack
      ensures Ready() && Now(d) == Counted(c, dst)
    {
      pos := pos + 1;
      stack := Count(stack);
      d := dst;
    }

    method Transit(src: State, dst: State) returns (d: State)
      requires Ready() && Framed(Now(src)) && pos < |text| && Leads(src, dst, Cur())
      modifies this`pos, this`error, this`ev, this`stack
      ensures Went(JsonGrammar.Transit(fl, text, old(Now(src)), dst), src, d, old(ev))
    {
      match dst {
        case ErrorState =>
          d := dst;
        case ObjectInitial =>
          d := TransitInitial(src, dst, Now(src));
        case ArrayInitial =>
          d := TransitInitial(src, dst, Now(src));
        case ObjectFinish =>
          d := TransitFinish(src, dst, Now(src));
        case ArrayFinish =>
          d := TransitFinish(src, dst, Now(src));
        case MemberValue =>
          d := TransitScalar(src, dst, Now(src));
        case Element =>
          d := TransitScalar(src, dst, Now(src));
        case ValueState =>
          d := TransitScalar(src, dst, Now(src));
        case MemberKey =>
          d := TransitWithin(src, dst);
        case KeyValueDelimiter =>
          d := TransitWithin(src, dst);
        case MemberDelimiter =>
          d := TransitWithin(src, dst);
        case ElementDelimiter =>
          d := TransitWithin(src, dst);
        case StartState =>
          assert false;
        case FinishState =>
          assert false;
      }
    }

    /** The cases that stay in the container: a name, a colon, a comma. */
    method TransitWithin(src: State, dst: State) returns (d: State)
      requires Ready() && Framed(Now(src)) && pos < |text| && Leads(src, dst, Cur())
      requires dst == MemberKey || dst == KeyValueDelimiter || dst == MemberDelimiter || dst == ElementDelimiter
      modifies this`pos, this`error, this`ev, this`stack
      ensures Went(JsonGrammar.Transit(fl, text, old(Now(src)), dst), src, d, old(ev))
    {
      if dst == MemberKey {
        d := TransitKey(dst, Now(src));
      } else if dst == KeyValueDelimiter {
        pos := pos + 1;
        d := dst;
      } else {
        d := TransitDelimiter(dst, Now(src));
      }
    }

    /** The move `r` from state `src` was made, to state `d`. */
    ghost predicate Went(r: Move, src: State, d: State, sent: seq<Event>)
      reads this
    {
      if r.Next? then Ready() && Now(d) == r.c
      else d == ErrorState && ev == sent && (error == Some(r.error) || (error == None && r.error == HandleError(src)))
    }

    /** Sets the error by the state the machine was in, unless one is set already. */
    method SetStateError(src: State)
      requires Live(src)
      modifies this`error
      ensures error == if old(error) != None then old(error) else Some(HandleError(src))
    {
      if error != None { return; }
      error := Some(HandleError(src));
    }

    /** One turn of the loop: a transition, and the blanks after it. */
    method TurnOnce(state: State) returns (d: State, more: bool)
      requires Ready() && Framed(Now(state)) && Cur() != NUL
      modifies this`pos, this`error, this`ev, this`stack
      ensures var o := Turn(fl, text, old(Now(state)));
        if more then Ready() && old(pos) < pos && Framed(Now(d)) && o == Loop(fl, text, Now(d)) else Did(o, [])
    {
      ghost var c := Now(state);
      ghost var whole := Turn(fl, text, c);
      assert [] + whole.ev == whole.ev;
      PredictLeads(state, Cur());
      d := Transit(state, Predict(state, Tokenize(Cur())));
      if d == ErrorState {
        SetStateError(state);
        return d, false;
      }
      assert whole == Tail(fl, text, Now(d));
      if fl.stopWhenDone && d == FinishState { return d, false; }
      SkipWhitespaceAndComments();
      more := error == None;
    }

    method IterativeParse()
      requires Ready() && pos == 0 && ev == [] && stack == []
      modifies this`pos, this`error, this`ev, this`stack
      ensures Did(Iterative(fl, text), [])
    {
      var state := StartState;
      ghost var whole := Iterative(fl, text);
      assert [] + whole.ev == whole.ev;
      SkipWhitespaceAndComments();
      if error != None { return; }
      while Cur() != NUL
        invariant Ready() && Framed(Now(state)) && whole == Loop(fl, text, Now(state))
        decreases |text| - pos
      {
        assert whole == Turn(fl, text, Now(state));
        var more;
        state, more := TurnOnce(state);
        if !more { return; }
      }
      if state != FinishState { SetStateError(state); }
    }
  }

  /** A fresh reader run either way, on any text: the same verdict, the same events, the same end; and the
      same error unless the text begins with punctuation. */
  method ParseBothWays(t: string, fl: Flags) returns (recursive: Reader, iterative: Reader)
    ensures recursive.Did(Recursive(fl, t), []) && iterative.Did(Iterative(fl, t), [])
    ensures recursive.ev == iterative.ev && (recursive.error == None <==> iterative.error == None)
    ensures recursive.error == None ==> recursive.pos == iterative.pos
    ensures recursive.error == iterative.error <==> !JsonAgreement.Punctuation(JsonAgreement.First(fl, t))
  {
    recursive := new Reader(t, fl);
    recursive.Parse();
    iterative := new Reader(t, fl);
    iterative.IterativeParse();
    JsonAgreement.SameVerdictSameEvents(fl, t);
    JsonAgreement.SameOutcome(fl, t);
    assert [] + Recursive(fl, t).ev == Recursive(fl, t).ev && [] + Iterative(fl, t).ev == Iterative(fl, t).ev;
  }
}
