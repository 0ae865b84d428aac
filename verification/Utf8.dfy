/** UTF-8 as encodings.h handles it, against the grammar of RFC 3629 section 4. */
module Utf8 {
  import opened Unicode

  const NUL: char := '\0'

  // ---------- RFC 3629 section 4 ----------

  predicate In(c: char, lo: int, hi: int) { lo <= c as int <= hi }

  predicate TailOctet(c: char) { In(c, 0x80, 0xBF) }

  /** `s` is one UTF8-char. */
  predicate CharOctets(s: string)
  {
    match |s|
    case 1 => In(s[0], 0, 0x7F)
    case 2 => In(s[0], 0xC2, 0xDF) && TailOctet(s[1])
    case 3 =>
      TailOctet(s[2]) &&
      ((In(s[0], 0xE0, 0xE0) && In(s[1], 0xA0, 0xBF)) || (In(s[0], 0xE1, 0xEC) && TailOctet(s[1]))
       || (In(s[0], 0xED, 0xED) && In(s[1], 0x80, 0x9F)) || (In(s[0], 0xEE, 0xEF) && TailOctet(s[1])))
    case 4 =>
      TailOctet(s[2]) && TailOctet(s[3]) &&
      ((In(s[0], 0xF0, 0xF0) && In(s[1], 0x90, 0xBF)) || (In(s[0], 0xF1, 0xF3) && TailOctet(s[1]))
       || (In(s[0], 0xF4, 0xF4) && In(s[1], 0x80, 0x8F)))
    case _ => false
  }

  /** `s` is UTF8-octets: any number of UTF8-chars. */
  predicate WellFormed(s: string)
    decreases |s|
  {
    s == [] || exists n :: 0 < n <= |s| && CharOctets(s[..n]) && WellFormed(s[n..])
  }

  /** The number of octets a lead octet asks for. */
  function Needs(c: char): (n: nat)
    ensures 1 <= n <= 4
  {
    if In(c, 0xC2, 0xDF) then 2 else if In(c, 0xE0, 0xEF) then 3 else if In(c, 0xF0, 0xF4) then 4 else 1
  }

  /** `s` begins with a UTF8-char; its length is settled by its lead octet. */
  predicate Leads(s: string) { s != [] && Needs(s[0]) <= |s| && CharOctets(s[..Needs(s[0])]) }

  lemma PrefixCode(s: string, n: nat)
    requires 0 < n <= |s| && CharOctets(s[..n])
    ensures n == Needs(s[0])
  {
  }

  lemma WellFormedStep(s: string)
    requires s != []
    ensures WellFormed(s) <==> Leads(s) && WellFormed(s[Needs(s[0])..])
  {
    if WellFormed(s) {
      var n :| 0 < n <= |s| && CharOctets(s[..n]) && WellFormed(s[n..]);
      PrefixCode(s, n);
    }
  }

  // ---------- Code points ----------

  /** The code units of one code point. */
  function Encode(c: int): (r: string)
    requires 0 <= c <= 0x10FFFF
    ensures 1 <= |r| <= 4
  {
    if c <= 0x7F then [c as char]
    else if c <= 0x7FF then [(0xC0 + c / 64) as char, (0x80 + c % 64) as char]
    else if c <= 0xFFFF then [(0xE0 + c / 4096) as char, (0x80 + c / 64 % 64) as char, (0x80 + c % 64) as char]
    else [(0xF0 + c / 262144) as char, (0x80 + c / 4096 % 64) as char, (0x80 + c / 64 % 64) as char, (0x80 + c % 64) as char]
  }

  /** The code point a UTF8-char stands for. */
  function CodePoint(s: string): (c: nat)
    requires CharOctets(s)
  {
    if |s| == 1 then s[0] as int
    else if |s| == 2 then (s[0] as int - 0xC0) * 64 + s[1] as int % 64
    else if |s| == 3 then ((s[0] as int - 0xE0) * 64 + s[1] as int % 64) * 64 + s[2] as int % 64
    else (((s[0] as int - 0xF0) * 64 + s[1] as int % 64) * 64 + s[2] as int % 64) * 64 + s[3] as int % 64
  }

  /** One scalar value, one UTF8-char: encoding and decoding are inverse, both ways. */
  lemma EncodeDecode(c: int)
    requires Scalar(c)
    ensures CharOctets(Encode(c)) && CodePoint(Encode(c)) == c
  {
    if c > 0xFFFF { EncodeDecode4(c); } else if c > 0x7FF { EncodeDecode3(c); }
  }

  lemma EncodeDecode3(c: int)
    requires Scalar(c) && 0x7FF < c <= 0xFFFF
    ensures CharOctets(Encode(c)) && CodePoint(Encode(c)) == c
  {
    Digits64(c);
    var s := Encode(c);
    assert s[0] as int == 0xE0 + c / 4096 && s[1] as int % 64 == c / 64 % 64 && s[2] as int % 64 == c % 64;
  }

  lemma EncodeDecode4(c: int)
    requires Scalar(c) && 0xFFFF < c
    ensures CharOctets(Encode(c)) && CodePoint(Encode(c)) == c
  {
    Digits64(c);
    var s := Encode(c);
    assert s[0] as int == 0xF0 + c / 262144 && s[1] as int % 64 == c / 4096 % 64;
    assert s[2] as int % 64 == c / 64 % 64 && s[3] as int % 64 == c % 64;
  }

  /** The digits of `c` in base 64. */
  lemma Digits64(c: nat)
    requires c <= 0x10FFFF
    ensures var a, b, d := c / 262144, c / 4096 % 64, c / 64 % 64;
      && c / 64 == c / 4096 * 64 + d && c / 4096 == a * 64 + b && c == c / 64 * 64 + c % 64
  {
  }

  lemma DecodeEncode(s: string)
    requires CharOctets(s)
    ensures Scalar(CodePoint(s)) && Encode(CodePoint(s)) == s
  {
    if |s| == 4 { DecodeEncode4(s); } else if |s| == 3 { DecodeEncode3(s); }
  }

  lemma DecodeEncode3(s: string)
    requires CharOctets(s) && |s| == 3
    ensures Scalar(CodePoint(s)) && Encode(CodePoint(s)) == s
  {
    var c := CodePoint(s);
    var b, d, e := s[0] as int - 0xE0, s[1] as int - 0x80, s[2] as int - 0x80;
    assert c == (b * 64 + d) * 64 + e;
    assert 0x800 <= c <= 0xFFFF;
    Base64(0, b, d, e);
  }

  lemma DecodeEncode4(s: string)
    requires CharOctets(s) && |s| == 4
    ensures Scalar(CodePoint(s)) && Encode(CodePoint(s)) == s
  {
    var c := CodePoint(s);
    var a, b, d, e := s[0] as int - 0xF0, s[1] as int - 0x80, s[2] as int - 0x80, s[3] as int - 0x80;
    assert c == ((a * 64 + b) * 64 + d) * 64 + e;
    assert 0x10000 <= c <= 0x10FFFF;
    Base64(a, b, d, e);
  }

  lemma Base64(a: nat, b: nat, d: nat, e: nat)
    requires b < 64 && d < 64 && e < 64
    ensures var c := ((a * 64 + b) * 64 + d) * 64 + e;
      c / 262144 == a && c / 4096 % 64 == b && c / 64 % 64 == d && c % 64 == e
  {
    var c := ((a * 64 + b) * 64 + d) * 64 + e;
    LastDigit((a * 64 + b) * 64 + d, e);
    LastDigit(a * 64 + b, d);
    LastDigit(a, b);
    assert c == 4096 * (a * 64 + b) + (d * 64 + e) && d * 64 + e < 4096;
    assert c == 262144 * a + (b * 4096 + d * 64 + e) && b * 4096 + d * 64 + e < 262144;
  }

  lemma LastDigit(x: nat, d: nat)
    requires d < 64
    ensures (x * 64 + d) / 64 == x && (x * 64 + d) % 64 == d
  {
  }

  function Encodes(cs: seq<int>): string
    requires Scalars(cs)
  {
    if cs == [] then [] else Encode(cs[0]) + Encodes(cs[1..])
  }

  lemma Append(c: int, rest: string)
    requires Scalar(c)
    ensures var s := Encode(c) + rest;
      Leads(s) && s[..Needs(s[0])] == Encode(c) && s[Needs(s[0])..] == rest
  {
    EncodeDecode(c);
    var s := Encode(c) + rest;
    assert s[..|Encode(c)|] == Encode(c) && s[|Encode(c)|..] == rest;
    PrefixCode(s, |Encode(c)|);
  }

  lemma {:induction false} EncodesWellFormed(cs: seq<int>)
    requires Scalars(cs)
    ensures WellFormed(Encodes(cs))
  {
    if cs != [] {
      EncodesWellFormed(cs[1..]);
      Append(cs[0], Encodes(cs[1..]));
      WellFormedStep(Encodes(cs));
    }
  }

  /** Well-formed strings are exactly the encodings of scalar value sequences. */
  lemma {:induction false} WellFormedEncodes(s: string) returns (cs: seq<int>)
    requires WellFormed(s)
    ensures Scalars(cs) && Encodes(cs) == s
    decreases |s|
  {
    if s == [] {
      cs := [];
    } else {
      WellFormedStep(s);
      var n := Needs(s[0]);
      var rest := WellFormedEncodes(s[n..]);
      var c := FirstCodePoint(s);
      EncodesCons(c, rest);
      cs := [c] + rest;
    }
  }

  lemma FirstCodePoint(s: string) returns (c: nat)
    requires Leads(s)
    ensures Scalar(c) && c == CodePoint(s[..Needs(s[0])]) && Encode(c) == s[..Needs(s[0])]
    ensures Encode(c) + s[Needs(s[0])..] == s
  {
    c := CodePoint(s[..Needs(s[0])]);
    DecodeEncode(s[..Needs(s[0])]);
  }

  lemma EncodesCons(c: int, rest: seq<int>)
    requires Scalar(c) && Scalars(rest)
    ensures Scalars([c] + rest) && Encodes([c] + rest) == Encode(c) + Encodes(rest)
  {
    assert ([c] + rest)[1..] == rest;
  }

  /** ... and each of exactly one sequence. */
  lemma {:induction false} EncodesInjective(a: seq<int>, b: seq<int>)
    requires Scalars(a) && Scalars(b) && Encodes(a) == Encodes(b)
    ensures a == b
  {
    if a != [] && b != [] {
      Append(a[0], Encodes(a[1..]));
      Append(b[0], Encodes(b[1..]));
      EncodeDecode(a[0]);
      EncodeDecode(b[0]);
      EncodesInjective(a[1..], b[1..]);
    }
  }

  // ---------- Streams ----------

  function HexDigit(c: char): int
    ensures -1 <= HexDigit(c) <= 15
  {
    if '0' <= c <= '9' then c as int - '0' as int
    else if 'A' <= c <= 'F' then c as int - 'A' as int + 10
    else if 'a' <= c <= 'f' then c as int - 'a' as int + 10
    else -1
  }

  predicate Triplet(t: string, i: nat)
  {
    i + 3 <= |t| && t[i] == '%' && HexDigit(t[i + 1]) >= 0 && HexDigit(t[i + 2]) >= 0
  }

  function TripletUnit(t: string, i: nat): char
    requires Triplet(t, i)
  {
    (HexDigit(t[i + 1]) * 16 + HexDigit(t[i + 2])) as char
  }

  /** The code units that consecutive triplets spell. */
  function Spelled(t: string, i: nat): string
    decreases |t| - i
  {
    if Triplet(t, i) then [TripletUnit(t, i)] + Spelled(t, i + 3) else []
  }

  /** What a stream still gives, whether it is still valid, and where it stands. */
  datatype View = View(left: string, valid: bool, pos: nat)

  /** A GenericStringStream, or, when `percent`, a PercentDecodeStream. */
  class InputStream {
    const text: string
    const percent: bool
    var pos: nat
    var valid: bool

    constructor (text: string, percent: bool, start: nat)
      ensures this.text == text && this.percent == percent && pos == start && valid
    {
      this.text, this.percent, pos, valid := text, percent, start, true;
    }

    /** The code units still to be taken. */
    ghost function Left(): string
      reads this
    {
      if percent then Spelled(text, pos) else if pos < |text| then text[pos..] else []
    }

    ghost function Now(): View
      reads this
    {
      View(Left(), valid, pos)
    }

    method Take() returns (c: char)
      modifies this
      ensures old(Left()) != [] ==> c == old(Left())[0] && Left() == old(Left())[1..] && valid == old(valid)
      ensures old(Left()) != [] ==> pos == old(pos) + (if percent then 3 else 1)
      ensures old(Left()) == [] ==> c == NUL && valid == (old(valid) && !percent) && (!percent ==> Left() == [])
    {
      if percent {
        if pos >= |text| || text[pos] != '%' || pos + 3 > |text| {
          valid := false;
          return NUL;
        }
        pos := pos + 1;
        var u := 0;
        var j := 0;
        while j < 2
          invariant 0 <= j <= 2 && pos == old(pos) + 1 + j && pos + 2 - j <= |text| && valid == old(valid)
          invariant j == 0 ==> u == 0
          invariant j >= 1 ==> HexDigit(text[old(pos) + 1]) >= 0
          invariant j == 1 ==> u == HexDigit(text[old(pos) + 1])
          invariant j == 2 ==> Triplet(text, old(pos)) && u == HexDigit(text[old(pos) + 1]) * 16 + HexDigit(text[old(pos) + 2])
        {
          var h := HexDigit(text[pos]);
          if h < 0 {
            valid := false;
            return NUL;
          }
          u := u * 16 + h;
          pos := pos + 1;
          j := j + 1;
        }
        c := u as char;
      } else {
        c := if pos < |text| then text[pos] else NUL;
        pos := pos + 1;
      }
    }
  }

  function HexChar(d: int): char
    requires 0 <= d < 16
  {
    if d < 10 then (d + '0' as int) as char else (d - 10 + 'A' as int) as char
  }

  function PercentTriplet(c: char): (r: string)
    ensures |r| == 3
  {
    var u := c as int % 256;
    ['%', HexChar(u / 16), HexChar(u % 16)]
  }

  function PercentTriplets(s: string): string { if s == [] then [] else PercentTriplet(s[0]) + PercentTriplets(s[1..]) }

  lemma OneTriplet(c: char)
    ensures PercentTriplets([c]) == PercentTriplet(c)
  {
    assert [c][1..] == [] && PercentTriplet(c) + [] == PercentTriplet(c);
  }

  function Written(percent: bool, s: string): string { if percent then PercentTriplets(s) else s }

  /** An output stream, which while `percent` has a PercentEncodeStream around it. */
  class OutputStream {
    var out: string
    var percent: bool

    constructor ()
      ensures out == [] && !percent
    {
      out, percent := [], false;
    }

    method Put(c: char)
      modifies this`out
      ensures out == old(out) + Written(percent, [c])
      ensures !percent ==> |out| == |old(out)| + 1
    {
      OneTriplet(c);
      if percent {
        out := out + PercentTriplet(c);
      } else {
        out := out + [c];
      }
    }
  }

  // ---------- GetRange, Decode, Validate ----------

  /** The octet classes, one bit each for the three kinds of tail octet. */
  function GetRange(c: char): bv8
  {
    var u := c as int;
    if u < 0x80 then 0
    else if u < 0x90 then 0x10 else if u < 0xA0 then 0x40 else if u < 0xC0 then 0x20
    else if u < 0xC2 then 8 else if u < 0xE0 then 2
    else if u == 0xE0 then 10 else if u < 0xED then 3 else if u == 0xED then 4 else if u < 0xF0 then 3
    else if u == 0xF0 then 11 else if u < 0xF4 then 6 else if u == 0xF4 then 5 else 8
  }

  predicate Meets(c: char, mask: bv8) { GetRange(c) & mask != 0 }

  /** The masks that the octets after a lead of this class must meet, in turn. */
  function Masks(range: bv8): seq<bv8>
  {
    if range == 2 then [0x70]
    else if range == 3 then [0x70, 0x70]
    else if range == 4 then [0x50, 0x70]
    else if range == 5 then [0x10, 0x70, 0x70]
    else if range == 6 then [0x70, 0x70, 0x70]
    else if range == 10 then [0x20, 0x70]
    else if range == 11 then [0x60, 0x70, 0x70]
    else []
  }

  predicate Fits(s: string, masks: seq<bv8>)
  {
    |masks| <= |s| && forall k {:trigger Meets(s[k], masks[k])} :: 0 <= k < |masks| ==> Meets(s[k], masks[k])
  }

  lemma MeetsTails(c: char)
    ensures Meets(c, 0x70) == TailOctet(c) && Meets(c, 0x50) == In(c, 0x80, 0x9F) && Meets(c, 0x10) == In(c, 0x80, 0x8F)
    ensures Meets(c, 0x20) == In(c, 0xA0, 0xBF) && Meets(c, 0x60) == In(c, 0x90, 0xBF)
  {
  }

  lemma GetRangeLeads(c: char)
    ensures (GetRange(c) == 2 <==> In(c, 0xC2, 0xDF)) && (GetRange(c) == 10 <==> In(c, 0xE0, 0xE0))
    ensures (GetRange(c) == 4 <==> In(c, 0xED, 0xED)) && (GetRange(c) == 3 <==> In(c, 0xE1, 0xEF) && !In(c, 0xED, 0xED))
    ensures (GetRange(c) == 11 <==> In(c, 0xF0, 0xF0)) && (GetRange(c) == 6 <==> In(c, 0xF1, 0xF3)) && (GetRange(c) == 5 <==> In(c, 0xF4, 0xF4))
  {
  }

  /** The table is the grammar: a lead and its masks accept exactly the UTF8-chars. */
  lemma TableIsGrammar(s: string)
    requires s != []
    ensures s[0] as int < 0x80 ==> Leads(s) && Needs(s[0]) == 1
    ensures s[0] as int >= 0x80 && Masks(GetRange(s[0])) == [] ==> !Leads(s)
    ensures Masks(GetRange(s[0])) != [] ==> Needs(s[0]) == 1 + |Masks(GetRange(s[0]))| && s[0] as int >= 0x80
    ensures Masks(GetRange(s[0])) != [] ==> (Leads(s) <==> Fits(s[1..], Masks(GetRange(s[0]))))
  {
    GetRangeLeads(s[0]);
    var t, masks := s[1..], Masks(GetRange(s[0]));
    if |masks| > 0 && |masks| <= |t| {
      MeetsTails(t[0]);
      if |masks| > 1 { MeetsTails(t[1]); }
      if |masks| > 2 { MeetsTails(t[2]); }
      assert Fits(t, masks) <==> Meets(t[0], masks[0]) && (|masks| > 1 ==> Meets(t[1], masks[1])) && (|masks| > 2 ==> Meets(t[2], masks[2]));
    }
  }

  lemma AppendNext(before: string, percent: bool, s: string, k: nat)
    requires k < |s|
    ensures before + Written(percent, s[..k + 1]) == before + Written(percent, s[..k]) + Written(percent, [s[k]])
  {
    WrittenNext(percent, s, k);
  }

  /** From `v` to `w` one octet was taken; `r` is whether it was there and meets the mask. */
  predicate Took(percent: bool, mask: bv8, v: View, w: View, r: bool)
  {
    && (!percent ==> w.valid == v.valid)
    && if v.left == [] then !r && (w.valid ==> v.valid)
       else w == View(v.left[1..], v.valid, v.pos + if percent then 3 else 1) && r == Meets(v.left[0], mask)
  }

  /** From `v` to `w` an octet was taken for each of `k` masks; `ok` is whether all were there and met theirs. */
  predicate Passed(percent: bool, masks: seq<bv8>, k: nat, v: View, w: View, ok: bool)
    requires k <= |masks|
  {
    && (!percent ==> w.valid == v.valid)
    && (ok && w.valid <==> v.valid && Fits(v.left, masks[..k]))
    && (ok && w.valid ==> w.left == v.left[k..] && w.pos == v.pos + if percent then 3 * k else k)
  }

  lemma FitsNext(s: string, masks: seq<bv8>, k: nat)
    requires k < |masks|
    ensures Fits(s, masks[..k + 1]) <==> Fits(s, masks[..k]) && k < |s| && Meets(s[k], masks[k])
  {
    if Fits(s, masks[..k + 1]) {
      assert Meets(s[k], masks[..k + 1][k]);
      forall j | 0 <= j < k ensures Meets(s[j], masks[..k][j]) { assert Meets(s[j], masks[..k + 1][j]); }
    }
  }

  lemma PassedNext(percent: bool, masks: seq<bv8>, k: nat, u: View, v: View, w: View, ok: bool, r: bool)
    requires k < |masks| && Passed(percent, masks, k, u, v, ok) && Took(percent, masks[k], v, w, r)
    ensures Passed(percent, masks, k + 1, u, w, ok && r)
    ensures ok && r && w.valid ==> k < |u.left| && v.left[0] == u.left[k]
  {
    FitsNext(u.left, masks, k);
  }

  /** COPY and TRANS: one octet on, and whether it meets the mask. */
  method CopyTrans(src: InputStream, os: OutputStream, mask: bv8) returns (r: bool)
    requires !Meets(NUL, mask)
    modifies src, os`out
    ensures Took(src.percent, mask, old(src.Now()), src.Now(), r)
    ensures old(src.Left()) != [] ==> os.out == old(os.out) + Written(os.percent, [old(src.Left())[0]])
    ensures !os.percent ==> |os.out| == |old(os.out)| + 1
  {
    var c := src.Take();
    os.Put(c);
    r := Meets(c, mask);
  }

  /** One octet to each mask, all of them taken whatever they are; passes exactly when every one is there and meets its mask. */
  method Tails(src: InputStream, os: OutputStream, masks: seq<bv8>) returns (result: bool)
    requires forall k :: 0 <= k < |masks| ==> !Meets(NUL, masks[k])
    modifies src, os`out
    ensures Passed(src.percent, masks, |masks|, old(src.Now()), src.Now(), result)
    ensures result && src.valid ==> os.out == old(os.out) + Written(os.percent, old(src.Left())[..|masks|])
    ensures !os.percent ==> |os.out| == |old(os.out)| + |masks|
  {
    result := true;
    ghost var was := src.Now();
    ghost var all := was.left;
    var k := 0;
    while k < |masks|
      invariant 0 <= k <= |masks|
      invariant Passed(src.percent, masks, k, was, src.Now(), result)
      invariant result && src.valid ==> os.out == old(os.out) + Written(os.percent, all[..k])
      invariant !os.percent ==> |os.out| == |old(os.out)| + k
    {
      ghost var v := src.Now();
      var r := CopyTrans(src, os, masks[k]);
      PassedNext(src.percent, masks, k, was, v, src.Now(), result, r);
      if k < |all| { AppendNext(old(os.out), os.percent, all, k); }
      result := result && r;
      k := k + 1;
    }
  }

  lemma {:induction false} TripletsConcat(a: string, b: string)
    ensures PercentTriplets(a + b) == PercentTriplets(a) + PercentTriplets(b)
  {
    if a == [] { assert a + b == b; } else {
      assert (a + b)[1..] == a[1..] + b;
      TripletsConcat(a[1..], b);
    }
  }

  lemma WrittenNext(percent: bool, s: string, k: nat)
    requires k < |s|
    ensures Written(percent, s[..k + 1]) == Written(percent, s[..k]) + Written(percent, [s[k]])
  {
    assert s[..k + 1] == s[..k] + [s[k]];
    TripletsConcat(s[..k], [s[k]]);
  }

  /** After a lead octet, its masks pass exactly when a UTF8-char stands in front, and then that is taken. */
  lemma PassedLeads(percent: bool, s: string, v: View, w: View, ok: bool)
    requires var masks := if s == [] then [] else Masks(GetRange(s[0]));
      masks != [] && v.valid && v.left == s[1..] && Passed(percent, masks, |masks|, v, w, ok)
    ensures ok && w.valid <==> Leads(s)
    ensures ok && w.valid ==> Needs(s[0]) == 1 + |Masks(GetRange(s[0]))| <= |s| && w.left == s[Needs(s[0])..]
  {
    var masks := Masks(GetRange(s[0]));
    TableIsGrammar(s);
    assert masks[..|masks|] == masks;
    if |masks| < |s| { assert s[1..][|masks|..] == s[1 + |masks|..]; }
  }

  /** Copies one UTF8-char, each octet once, and says whether it was one. */
  method Validate(src: InputStream, os: OutputStream) returns (ok: bool)
    requires src.valid && (src.percent || src.Left() != [])
    modifies src, os`out
    ensures ok && src.valid <==> Leads(old(src.Left()))
    ensures !src.percent ==> src.valid
    ensures ok && src.valid ==>
      var n := Needs(old(src.Left())[0]);
      && src.Left() == old(src.Left())[n..] && src.pos == old(src.pos) + (if src.percent then 3 * n else n)
      && os.out == old(os.out) + Written(os.percent, old(src.Left())[..n])
    ensures !os.percent ==> |os.out| <= |old(os.out)| + (if old(src.Left()) == [] then 1 else 4)
  {
    ghost var all := src.Left();
    var c := src.Take();
    os.Put(c);
    if all != [] { TableIsGrammar(all); }
    if c as int < 0x80 {
      if all != [] { assert all[..1] == [all[0]]; }
      return true;
    }
    var masks := Masks(GetRange(c));
    if masks == [] {
      return false;
    }
    ghost var v := src.Now();
    ok := Tails(src, os, masks);
    PassedLeads(src.percent, all, v, src.Now(), ok);
    if ok && src.valid {
      ValidatedWritten(old(os.out), os.percent, all, |masks|);
    }
  }

  lemma ValidatedWritten(before: string, percent: bool, s: string, m: nat)
    requires m < |s|
    ensures before + Written(percent, [s[0]]) + Written(percent, s[1..][..m]) == before + Written(percent, s[..1 + m])
  {
    assert s[..1 + m] == [s[0]] + s[1..][..m];
    TripletsConcat([s[0]], s[1..][..m]);
  }

  /** The bits a lead octet of this class contributes. */
  function LeadBits(range: bv8, c: char): nat
  {
    var u := c as int;
    if range == 2 then u % 64 else if range == 3 then u % 32 else if range == 4 then u % 16
    else if range == 5 then u % 8 else if range == 6 then u % 4 else 0
  }

  /** Six more bits for each octet. */
  function Fold(cp: nat, s: string): nat
    decreases |s|
  {
    if s == [] then cp else Fold(cp, s[..|s| - 1]) * 64 + s[|s| - 1] as int % 64
  }

  lemma FoldNext(lead: nat, s: string, k: nat, before: nat, cp: nat)
    requires k < |s| && before == Fold(lead, s[..k]) && cp == before * 64 + s[k] as int % 64
    ensures cp == Fold(lead, s[..k + 1])
  {
    assert s[..k + 1][..k] == s[..k];
  }

  /** COPY and TRANS of Decode: six more bits, and whether their octet meets the mask. */
  method TakeTrans(src: InputStream, before: nat, mask: bv8) returns (r: bool, codepoint: nat)
    requires !Meets(NUL, mask)
    modifies src
    ensures Took(src.percent, mask, old(src.Now()), src.Now(), r)
    ensures old(src.Left()) != [] ==> codepoint == before * 64 + old(src.Left())[0] as int % 64
  {
    var c := src.Take();
    codepoint := before * 64 + c as int % 64;
    r := Meets(c, mask);
  }

  method DecodeTail(src: InputStream, before: nat, masks: seq<bv8>, k: nat, good: bool, ghost lead: nat, ghost was: View)
    returns (result: bool, codepoint: nat)
    requires k < |masks| && !Meets(NUL, masks[k]) && Passed(src.percent, masks, k, was, src.Now(), good)
    requires good && src.valid ==> before == Fold(lead, was.left[..k])
    modifies src
    ensures Passed(src.percent, masks, k + 1, was, src.Now(), result)
    ensures result && src.valid ==> codepoint == Fold(lead, was.left[..k + 1])
  {
    ghost var v := src.Now();
    var r;
    r, codepoint := TakeTrans(src, before, masks[k]);
    PassedNext(src.percent, masks, k, was, v, src.Now(), good, r);
    result := good && r;
    if result && src.valid { FoldNext(lead, was.left, k, before, codepoint); }
  }

  method DecodeTails(src: InputStream, lead: nat, masks: seq<bv8>) returns (result: bool, codepoint: nat)
    requires forall k :: 0 <= k < |masks| ==> !Meets(NUL, masks[k])
    modifies src
    ensures Passed(src.percent, masks, |masks|, old(src.Now()), src.Now(), result)
    ensures result && src.valid ==> codepoint == Fold(lead, old(src.Left())[..|masks|])
  {
    result, codepoint := true, lead;
    ghost var was := src.Now();
    var k := 0;
    assert was.left[..0] == [] && was.left[0..] == was.left;
    while k < |masks|
      invariant 0 <= k <= |masks| && Passed(src.percent, masks, k, was, src.Now(), result)
      invariant result && src.valid ==> codepoint == Fold(lead, was.left[..k])
    {
      result, codepoint := DecodeTail(src, codepoint, masks, k, result, lead, was);
      k := k + 1;
    }
  }

  lemma LeadBitsAre(c: char)
    ensures Masks(GetRange(c)) != [] ==>
      LeadBits(GetRange(c), c) == c as int - (if Needs(c) == 2 then 0xC0 else if Needs(c) == 3 then 0xE0 else 0xF0)
  {
  }

  lemma FoldIsCodePoint(s: string)
    requires Leads(s) && Masks(GetRange(s[0])) != []
    ensures Needs(s[0]) == 1 + |Masks(GetRange(s[0]))|
    ensures Fold(LeadBits(GetRange(s[0]), s[0]), s[1..][..|Masks(GetRange(s[0]))|]) == CodePoint(s[..Needs(s[0])])
  {
    TableIsGrammar(s);
    LeadBitsAre(s[0]);
    var n, lead := Needs(s[0]), LeadBits(GetRange(s[0]), s[0]);
    var t := s[1..][..n - 1];
    if n == 2 {
      assert t == [s[1]];
    } else if n == 3 {
      assert t == [s[1], s[2]];
    } else {
      assert t == [s[1], s[2], s[3]];
    }
    FoldFew(lead, s[1], if n > 2 then s[2] else NUL, if n > 3 then s[3] else NUL);
  }

  lemma FoldFew(cp: nat, a: char, b: char, c: char)
    ensures var d, e, f := a as int % 64, b as int % 64, c as int % 64;
      && Fold(cp, [a]) == cp * 64 + d && Fold(cp, [a, b]) == (cp * 64 + d) * 64 + e
      && Fold(cp, [a, b, c]) == ((cp * 64 + d) * 64 + e) * 64 + f
  {
    assert [a, b, c][..2] == [a, b] && [a, b][..1] == [a] && [a][..0] == [];
  }

  /** Takes one UTF8-char and gives its code point, and says whether it was one. */
  method Decode(src: InputStream) returns (ok: bool, codepoint: nat)
    requires src.valid && (src.percent || src.Left() != [])
    modifies src
    ensures ok && src.valid <==> Leads(old(src.Left()))
    ensures !src.percent ==> src.valid
    ensures ok && src.valid ==>
      var n := Needs(old(src.Left())[0]);
      && src.Left() == old(src.Left())[n..] && src.pos == old(src.pos) + (if src.percent then 3 * n else n)
      && codepoint == CodePoint(old(src.Left())[..n])
  {
    ghost var all := src.Left();
    var c := src.Take();
    if all != [] { TableIsGrammar(all); }
    if c as int < 0x80 {
      return true, c as int;
    }
    codepoint := LeadBits(GetRange(c), c);
    var masks := Masks(GetRange(c));
    if masks == [] {
      return false, codepoint;
    }
    ghost var v := src.Now();
    ok, codepoint := DecodeTails(src, codepoint, masks);
    PassedLeads(src.percent, all, v, src.Now(), ok);
    if ok && src.valid { FoldIsCodePoint(all); }
  }

  // ---------- Whole strings ----------

  /** Validate again and again: accepts the well-formed strings, and has then copied each octet once. */
  method ValidateAll(text: string) returns (ok: bool, copy: string)
    ensures ok <==> WellFormed(text)
    ensures ok ==> copy == text
  {
    var src := new InputStream(text, false, 0);
    var os := new OutputStream();
    while src.pos < |text|
      invariant src.pos <= |text| && src.valid && !src.percent && src.text == text && !os.percent
      invariant WellFormed(text) <==> WellFormed(text[src.pos..])
      invariant os.out == text[..src.pos]
      decreases |text| - src.pos
    {
      ghost var p := src.pos;
      WellFormedStep(text[p..]);
      ok := Validate(src, os);
      if !ok {
        return false, os.out;
      }
      assert text[p..][Needs(text[p])..] == text[src.pos..];
      assert text[..p] + text[p..][..Needs(text[p])] == text[..src.pos];
    }
    ok, copy := true, os.out;
  }

  /** CountStringCodePoint, with the code points it passes over. */
  method CountStringCodePoint(text: string) returns (ok: bool, count: nat, codepoints: seq<int>)
    ensures ok <==> WellFormed(text)
    ensures ok ==> Scalars(codepoints) && Encodes(codepoints) == text && count == |codepoints|
    ensures forall cs :: Scalars(cs) && Encodes(cs) == text ==> ok && codepoints == cs
  {
    var src := new InputStream(text, false, 0);
    count, codepoints := 0, [];
    while src.pos < |text|
      invariant src.pos <= |text| && src.valid && !src.percent && src.text == text
      invariant WellFormed(text) <==> WellFormed(text[src.pos..])
      invariant Scalars(codepoints) && count == |codepoints|
      invariant Encodes(codepoints) == text[..src.pos]
      decreases |text| - src.pos
    {
      ghost var p := src.pos;
      WellFormedStep(text[p..]);
      var good, codepoint := Decode(src);
      if !good {
        NotEncoded(text);
        return false, count, codepoints;
      }
      CountStep(text, p, codepoints, codepoint);
      count, codepoints := count + 1, codepoints + [codepoint];
    }
    ok := true;
    assert text[..src.pos] == text;
    OnlyEncoding(text, codepoints);
  }

  lemma OnlyEncoding(text: string, mine: seq<int>)
    requires Scalars(mine) && Encodes(mine) == text
    ensures forall cs :: Scalars(cs) && Encodes(cs) == text ==> mine == cs
  {
    forall cs | Scalars(cs) && Encodes(cs) == text
      ensures mine == cs
    {
      EncodesInjective(mine, cs);
    }
  }

  lemma CountStep(text: string, p: nat, cs: seq<int>, c: nat)
    requires p < |text| && Scalars(cs) && Encodes(cs) == text[..p]
    requires Leads(text[p..]) && c == CodePoint(text[p..][..Needs(text[p])])
    ensures Scalars(cs + [c]) && Encodes(cs + [c]) == text[..p + Needs(text[p])]
    ensures text[p..][Needs(text[p])..] == text[p + Needs(text[p])..]
  {
    var c' := FirstCodePoint(text[p..]);
    EncodesSnoc(cs, c');
    assert text[..p] + text[p..][..Needs(text[p])] == text[..p + Needs(text[p])];
  }

  lemma NotEncoded(text: string)
    requires !WellFormed(text)
    ensures forall cs :: Scalars(cs) ==> Encodes(cs) != text
  {
    forall cs | Scalars(cs)
      ensures Encodes(cs) != text
    {
      EncodesWellFormed(cs);
    }
  }

  lemma {:induction false} EncodesSnoc(cs: seq<int>, c: int)
    requires Scalars(cs) && Scalar(c)
    ensures Encodes(cs + [c]) == Encodes(cs) + Encode(c)
  {
    if cs == [] {
      assert [c][1..] == [];
    } else {
      assert (cs + [c])[1..] == cs[1..] + [c];
      EncodesSnoc(cs[1..], c);
    }
  }
}
