/** UTF-16 as encodings.h handles it: surrogate pairs, one code point at a time (RFC 2781). */
module Utf16 {
  import opened Unicode

  predicate Units(s: seq<int>) { forall k :: 0 <= k < |s| ==> 0 <= s[k] <= 0xFFFF }

  function Encode(c: int): (r: seq<int>)
    requires Scalar(c)
    ensures Units(r) && 1 <= |r| <= 2
  {
    if c <= 0xFFFF then [c] else var v := c - 0x10000; [v / 1024 + 0xD800, v % 1024 + 0xDC00]
  }

  predicate Surrogate(u: int) { 0xD800 <= u <= 0xDFFF }

  predicate High(u: int) { 0xD800 <= u <= 0xDBFF }

  predicate Low(u: int) { 0xDC00 <= u <= 0xDFFF }

  /** How many units the front of `s` takes; a code point stands there exactly when they fit and pair. */
  function Needs(u: int): nat { if High(u) then 2 else 1 }

  predicate Leads(s: seq<int>) { s != [] && (!Surrogate(s[0]) || (High(s[0]) && |s| > 1 && Low(s[1]))) }

  predicate WellFormed(s: seq<int>)
    decreases |s|
  {
    s == [] || (Leads(s) && WellFormed(s[Needs(s[0])..]))
  }

  function Encodes(cs: seq<int>): seq<int>
    requires Scalars(cs)
  {
    if cs == [] then [] else Encode(cs[0]) + Encodes(cs[1..])
  }

  lemma {:induction false} EncodesUnits(cs: seq<int>)
    requires Scalars(cs)
    ensures Units(Encodes(cs)) && WellFormed(Encodes(cs))
  {
    if cs != [] {
      EncodesUnits(cs[1..]);
      var s, n := Encodes(cs), |Encode(cs[0])|;
      assert s[..n] == Encode(cs[0]) && s[n..] == Encodes(cs[1..]);
      assert Leads(s) && Needs(s[0]) == n;
    }
  }

  /** A stream of code units; past its end it gives NUL. */
  class InputStream {
    const text: seq<int>
    var pos: nat

    constructor (text: seq<int>)
      ensures this.text == text && pos == 0
    {
      this.text, pos := text, 0;
    }

    method Take() returns (u: int)
      modifies this
      ensures u == (if old(pos) < |text| then text[old(pos)] else 0) && pos == old(pos) + 1
    {
      u := if pos < |text| then text[pos] else 0;
      pos := pos + 1;
    }
  }

  /** The two halves of a pair are the high and the low ten bits. */
  lemma Paired(h: int, l: int)
    requires High(h)
    ensures var c := h % 1024 * 1024 + l % 1024 + 0x10000;
      0x10000 <= c <= 0x10FFFF && (Low(l) ==> Encode(c) == [h, l])
  {
    var a, b := h % 1024, l % 1024;
    assert h == a + 0xD800 && 0 <= b < 1024;
    assert (a * 1024 + b) / 1024 == a && (a * 1024 + b) % 1024 == b;
    if Low(l) { assert l == b + 0xDC00; }
  }

  method Decode(src: InputStream) returns (ok: bool, codepoint: int)
    requires Units(src.text) && src.pos < |src.text|
    modifies src
    ensures ok == Leads(src.text[old(src.pos)..])
    ensures ok ==> src.pos == old(src.pos) + Needs(src.text[old(src.pos)]) <= |src.text|
    ensures ok ==> Scalar(codepoint) && Encode(codepoint) == src.text[old(src.pos)..src.pos]
  {
    var c := src.Take();
    if c < 0xD800 || c > 0xDFFF {
      return true, c;
    } else if c <= 0xDBFF {
      codepoint := c % 1024 * 1024;
      c := src.Take();
      codepoint := codepoint + c % 1024;
      codepoint := codepoint + 0x10000;
      Paired(src.text[old(src.pos)], c);
      return c >= 0xDC00 && c <= 0xDFFF, codepoint;
    }
    return false, 0;
  }

  /** Copies one code point, each unit once. */
  method Validate(src: InputStream, out: seq<int>) returns (ok: bool, copy: seq<int>)
    requires Units(src.text) && src.pos < |src.text|
    modifies src
    ensures ok == Leads(src.text[old(src.pos)..])
    ensures ok ==> src.pos == old(src.pos) + Needs(src.text[old(src.pos)]) <= |src.text|
    ensures ok ==> copy == out + src.text[old(src.pos)..src.pos]
  {
    var c := src.Take();
    copy := out + [c];
    if c < 0xD800 || c > 0xDFFF {
      return true, copy;
    } else if c <= 0xDBFF {
      c := src.Take();
      copy := copy + [c];
      return c >= 0xDC00 && c <= 0xDFFF, copy;
    }
    return false, copy;
  }

  /** Validate again and again: accepts the well-formed texts, and has then copied each unit once. */
  method ValidateAll(text: seq<int>) returns (ok: bool, copy: seq<int>)
    requires Units(text)
    ensures ok == WellFormed(text) && (ok ==> copy == text)
  {
    var src := new InputStream(text);
    copy := [];
    assert text[0..] == text;
    while src.pos < |text|
      invariant src.text == text && src.pos <= |text| && copy == text[..src.pos]
      invariant WellFormed(text) == WellFormed(text[src.pos..])
      decreases |text| - src.pos
    {
      ghost var p := src.pos;
      ok, copy := Validate(src, copy);
      if !ok { return; }
      Slices(text, p, src.pos);
    }
    ok := true;
  }

  /** Decode again and again: accepts the same texts, and gives the only code points they encode. */
  method DecodeAll(text: seq<int>) returns (ok: bool, codepoints: seq<int>)
    requires Units(text)
    ensures ok == WellFormed(text)
    ensures ok ==> Scalars(codepoints) && Encodes(codepoints) == text
    ensures forall cs :: Scalars(cs) && Encodes(cs) == text ==> ok && codepoints == cs
  {
    var src := new InputStream(text);
    codepoints := [];
    assert text[0..] == text;
    while src.pos < |text|
      invariant src.text == text && src.pos <= |text|
      invariant WellFormed(text) == WellFormed(text[src.pos..])
      invariant Scalars(codepoints) && Encodes(codepoints) == text[..src.pos]
      decreases |text| - src.pos
    {
      ghost var p := src.pos;
      var good, c := Decode(src);
      if !good {
        NotEncoded(text);
        return false, codepoints;
      }
      Slices(text, p, src.pos);
      Decoded(text, p, src.pos, codepoints, c);
      codepoints := codepoints + [c];
    }
    ok := true;
    assert text[..src.pos] == text;
    OnlyEncoding(text, codepoints);
  }

  lemma Slices(text: seq<int>, p: nat, q: nat)
    requires p <= q <= |text|
    ensures text[p..][q - p..] == text[q..] && text[..p] + text[p..q] == text[..q]
  {
  }

  lemma Decoded(text: seq<int>, p: nat, q: nat, cs: seq<int>, c: int)
    requires p <= q <= |text| && Scalars(cs) && Scalar(c) && Encodes(cs) == text[..p] && Encode(c) == text[p..q]
    ensures Scalars(cs + [c]) && Encodes(cs + [c]) == text[..q]
  {
    EncodesSnoc(cs, c);
    Slices(text, p, q);
  }

  lemma NotEncoded(text: seq<int>)
    requires !WellFormed(text)
    ensures forall cs :: Scalars(cs) ==> Encodes(cs) != text
  {
    forall cs | Scalars(cs)
      ensures Encodes(cs) != text
    {
      EncodesUnits(cs);
    }
  }

  lemma {:induction false} EncodesSnoc(cs: seq<int>, c: int)
    requires Scalars(cs) && Scalar(c)
    ensures Encodes(cs + [c]) == Encodes(cs) + Encode(c)
  {
    if cs == [] {
      assert [c][1..] == [];
    } else {
      assert (cs + [c])[1..] == cs[1..] + [c];
      EncodesSnoc(cs[1..], c);
    }
  }

  lemma {:induction false} EncodesInjective(a: seq<int>, b: seq<int>)
    requires Scalars(a) && Scalars(b) && Encodes(a) == Encodes(b)
    ensures a == b
  {
    if a != [] && b != [] {
      var s := Encodes(a);
      assert s[..|Encode(a[0])|] == Encode(a[0]) && s[|Encode(a[0])|..] == Encodes(a[1..]);
      assert s[..|Encode(b[0])|] == Encode(b[0]) && s[|Encode(b[0])|..] == Encodes(b[1..]);
      assert Needs(s[0]) == |Encode(a[0])| == |Encode(b[0])|;
      EncodeInjective(a[0], b[0]);
      EncodesInjective(a[1..], b[1..]);
    }
  }

  lemma EncodeInjective(c: int, d: int)
    requires Scalar(c) && Scalar(d) && Encode(c) == Encode(d)
    ensures c == d
  {
    if c > 0xFFFF && d > 0xFFFF {
      var v, w := c - 0x10000, d - 0x10000;
      assert Encode(c)[0] == v / 1024 + 0xD800 && Encode(d)[0] == w / 1024 + 0xD800;
      assert Encode(c)[1] == v % 1024 + 0xDC00 && Encode(d)[1] == w % 1024 + 0xDC00;
    }
  }

  lemma OnlyEncoding(text: seq<int>, mine: seq<int>)
    requires Scalars(mine) && Encodes(mine) == text
    ensures forall cs :: Scalars(cs) && Encodes(cs) == text ==> mine == cs
  {
    forall cs | Scalars(cs) && Encodes(cs) == text
      ensures mine == cs
    {
      EncodesInjective(mine, cs);
    }
  }
}
