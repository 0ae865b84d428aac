/** JSON Pointer text: Parse and Stringify of pointer.h, plain and as URI fragment (RFC 6901 sections 3, 4 and 6). */
module PointerText {
  import opened Options
  import opened JsonText
  import Utf8

  const WIDTH := 0x1_0000_0000      // SizeType is 32 bits wide
  const INVALID_INDEX := 0xFFFF_FFFF

  datatype Token = Token(name: string, index: int)

  datatype PointerError = TokenMustBeginWithSolidus | InvalidEscape | InvalidPercentEncoding | CharacterMustPercentEncode

  datatype Result<T> = Got(value: T) | Bad(error: PointerError, offset: nat)

  // ---------- The index of a token ----------

  predicate AllDigits(s: string) { forall k :: 0 <= k < |s| ==> Digit(s[k]) }

  /** The conversion to SizeType from digit `j` on; None when the overflow test notices. */
  function Convert(s: string, j: nat, n: nat): (r: Option<nat>)
    requires j <= |s| && AllDigits(s) && n < WIDTH
    ensures r.Some? ==> r.value < WIDTH
    decreases |s| - j
  {
    if j == |s| then Some(n) else
      var m := (n * 10 + DigitVal(s[j])) % WIDTH;
      if m < n then None else Convert(s, j + 1, m)
  }

  /** Digits with no leading zero. */
  predicate Canonical(s: string) { s != [] && AllDigits(s) && (|s| > 1 ==> s[0] != '0') }

  function IndexOf(name: string): (i: int)
    ensures 0 <= i < WIDTH
  {
    if !Canonical(name) then INVALID_INDEX else
      var r := Convert(name, 0, 0);
      if r.Some? then r.value else INVALID_INDEX
  }

  /** The number `s` writes in decimal. */
  function Decimal(s: string): nat
    requires AllDigits(s)
    decreases |s|
  {
    if s == [] then 0 else Decimal(s[..|s| - 1]) * 10 + DigitVal(s[|s| - 1])
  }

  lemma {:induction false} DecimalGrows(s: string, j: nat)
    requires AllDigits(s) && j <= |s|
    ensures Decimal(s[..j]) <= Decimal(s)
    decreases |s|
  {
    if j < |s| {
      DecimalGrows(s[..|s| - 1], j);
      assert s[..|s| - 1][..j] == s[..j];
    } else {
      assert s[..j] == s;
    }
  }

  /** The first `j` digits, as SizeType holds them. */
  function Wrapped(s: string, j: nat): (n: nat)
    requires AllDigits(s) && j <= |s|
    ensures n < WIDTH
  {
    Decimal(s[..j]) % WIDTH
  }

  /** The overflow test lets digit `j` pass. */
  predicate Climbs(s: string, j: nat)
    requires AllDigits(s) && j < |s|
  {
    Wrapped(s, j) <= Wrapped(s, j + 1)
  }

  lemma ModTimesTen(x: nat, d: nat)
    ensures (x % WIDTH * 10 + d) % WIDTH == (x * 10 + d) % WIDTH
  {
    var q, r := x / WIDTH, x % WIDTH;
    assert x * 10 + d == (r * 10 + d) + q * 10 * WIDTH;
    ModMultiple(r * 10 + d, q * 10);
  }

  lemma {:induction false} ModMultiple(x: nat, k: nat)
    ensures (x + k * WIDTH) % WIDTH == x % WIDTH
    decreases k
  {
    if k > 0 {
      ModMultiple(x, k - 1);
      assert x + k * WIDTH == (x + (k - 1) * WIDTH) + WIDTH;
    }
  }

  lemma WrappedNext(s: string, j: nat)
    requires AllDigits(s) && j < |s|
    ensures Wrapped(s, j + 1) == (Wrapped(s, j) * 10 + DigitVal(s[j])) % WIDTH
  {
    DecimalNext(s, j);
    ModTimesTen(Decimal(s[..j]), DigitVal(s[j]));
  }

  /** One digit of the conversion. */
  lemma ConvertPasses(s: string, j: nat)
    requires AllDigits(s) && j < |s|
    ensures Convert(s, j, Wrapped(s, j)) == if Climbs(s, j) then Convert(s, j + 1, Wrapped(s, j + 1)) else None
  {
    WrappedNext(s, j);
  }

  /** For any number of digits: the conversion ends with the value modulo 2^32, unless some step made it smaller. */
  lemma {:induction false} ConvertWhen(s: string, j: nat)
    requires AllDigits(s) && j <= |s|
    ensures Convert(s, j, Wrapped(s, j)) ==
      if forall k :: j <= k < |s| ==> Climbs(s, k) then Some(Decimal(s) % WIDTH) else None
    decreases |s| - j
  {
    if j == |s| {
      assert s[..j] == s;
    } else {
      ConvertWhen(s, j + 1);
      ConvertPasses(s, j);
    }
  }

  lemma NoWrap(s: string, j: nat, n: nat)
    requires AllDigits(s) && j < |s| && n * 10 + DigitVal(s[j]) < WIDTH
    ensures Convert(s, j, n) == Convert(s, j + 1, n * 10 + DigitVal(s[j]))
  {
  }

  lemma DecimalNext(s: string, j: nat)
    requires AllDigits(s) && j < |s|
    ensures Decimal(s[..j + 1]) == Decimal(s[..j]) * 10 + DigitVal(s[j])
  {
    assert s[..j + 1][..j] == s[..j];
  }

  /** What the code makes of any canonical number, however long. */
  lemma IndexIs(name: string)
    requires Canonical(name)
    ensures IndexOf(name) ==
      if forall j :: 0 <= j < |name| ==> Climbs(name, j) then Decimal(name) % WIDTH else INVALID_INDEX
  {
    assert name[..0] == [] && Wrapped(name, 0) == 0;
    ConvertWhen(name, 0);
  }

  lemma SmallClimbs(name: string)
    requires AllDigits(name) && Decimal(name) < WIDTH
    ensures forall j :: 0 <= j < |name| ==> Climbs(name, j)
  {
    forall j | 0 <= j < |name|
      ensures Climbs(name, j)
    {
      DecimalNext(name, j);
      WrappedSmall(name, j);
      WrappedSmall(name, j + 1);
    }
  }

  lemma WrappedSmall(name: string, j: nat)
    requires AllDigits(name) && Decimal(name) < WIDTH && j <= |name|
    ensures Wrapped(name, j) == Decimal(name[..j])
  {
    DecimalGrows(name, j);
  }

  /** An index is the number its name writes exactly when that number is below 2^32 - 1. */
  lemma IndexExact(name: string)
    requires Canonical(name)
    ensures IndexOf(name) == Decimal(name) && IndexOf(name) != INVALID_INDEX <==> Decimal(name) < INVALID_INDEX
  {
    if Decimal(name) < WIDTH {
      SmallClimbs(name);
      IndexIs(name);
    }
  }

  /**
   * A number too large for an index is kept as a string only exactly when some step of the conversion makes the
   * wrapped value smaller, or it ends at 2^32 - 1 itself; every other one gets an index it does not write.
   */
  lemma StringOnlyWhen(name: string)
    requires Canonical(name) && Decimal(name) >= INVALID_INDEX
    ensures IndexOf(name) == INVALID_INDEX <==>
      Decimal(name) % WIDTH == INVALID_INDEX || exists j :: 0 <= j < |name| && !Climbs(name, j)
    ensures IndexOf(name) != INVALID_INDEX ==> IndexOf(name) == Decimal(name) % WIDTH != Decimal(name)
  {
    IndexIs(name);
  }

  /** The overflow test compares with the previous value only, and misses this wrap. */
  lemma WrapUndetected()
    ensures IndexOf("6000000000") == 6000000000 % WIDTH != INVALID_INDEX
  {
    SixBillion("6000000000");
  }

  lemma SixBillion(s: string)
    requires |s| == 10 && s[0] == '6' && forall k :: 1 <= k < 10 ==> s[k] == '0'
    ensures IndexOf(s) == 6000000000 % WIDTH
  {
    assert Convert(s, 0, 0) == Convert(s, 1, 6);
    NoWrap(s, 1, 6);
    NoWrap(s, 2, 60);
    NoWrap(s, 3, 600);
    NoWrap(s, 4, 6000);
    NoWrap(s, 5, 60000);
    NoWrap(s, 6, 600000);
    NoWrap(s, 7, 6000000);
    NoWrap(s, 8, 60000000);
    Wraps(s, 9, 600000000);
  }

  lemma Wraps(s: string, j: nat, n: nat)
    requires j + 1 == |s| && AllDigits(s) && s[j] == '0' && n < WIDTH && n <= n * 10 % WIDTH
    ensures Convert(s, j, n) == Some(n * 10 % WIDTH)
  {
  }

  // ---------- What Parse computes ----------

  /** RFC 3986 section 2.3: everything but the unreserved characters. */
  predicate NeedPercentEncode(c: char)
  {
    !(Digit(c) || 'A' <= c <= 'Z' || 'a' <= c <= 'z' || c == '-' || c == '.' || c == '_' || c == '~')
  }

  /** The character `c` just before `i`, or what the escape it starts stands for. */
  function Unescape(t: string, i: nat, c: char): (r: Result<(nat, string)>)
    requires i <= |t|
    ensures r.Got? ==> i <= r.value.0 <= |t|
  {
    if c != '~' then Got((i, [c]))
    else if Peek(t, i) == '0' then Got((i + 1, "~"))
    else if Peek(t, i) == '1' then Got((i + 1, "/"))
    else Bad(InvalidEscape, i)
  }

  /** One round of the inner loop: the next position, and what goes into the name. */
  function Unit(t: string, i: nat, fragment: bool): (r: Result<(nat, string)>)
    requires i < |t|
    ensures r.Got? ==> i < r.value.0 <= |t|
  {
    if fragment && t[i] == '%' then
      var u := Utf8.Spelled(t, i);
      if !Utf8.Leads(u) then Bad(InvalidPercentEncoding, i) else
      var n := Utf8.Needs(u[0]);
      SpelledLength(t, i);
      if n == 1 then Unescape(t, i + 3, u[0]) else Got((i + 3 * n, u[..n]))
    else if fragment && NeedPercentEncode(t[i]) then Bad(CharacterMustPercentEncode, i)
    else Unescape(t, i + 1, t[i])
  }

  lemma {:induction false} SpelledLength(t: string, i: nat)
    requires i <= |t|
    ensures i + 3 * |Utf8.Spelled(t, i)| <= |t|
    decreases |t| - i
  {
    if Utf8.Triplet(t, i) { SpelledLength(t, i + 3); }
  }

  function Name(t: string, i: nat, fragment: bool): (r: Result<(nat, string)>)
    requires i <= |t|
    ensures r.Got? ==> i <= r.value.0 <= |t| && (r.value.0 < |t| ==> t[r.value.0] == '/')
    decreases |t| - i
  {
    if i == |t| || t[i] == '/' then Got((i, "")) else
      var u := Unit(t, i, fragment);
      if u.Bad? then u else Before(u.value.1, Name(t, u.value.0, fragment))
  }

  function Before(p: string, r: Result<(nat, string)>): Result<(nat, string)>
  {
    if r.Bad? then r else Got((r.value.0, p + r.value.1))
  }

  function TokensFrom(t: string, i: nat, fragment: bool): (r: Result<seq<Token>>)
    requires i <= |t| && (i < |t| ==> t[i] == '/')
    decreases |t| - i
  {
    if i == |t| then Got([]) else
      var n := Name(t, i + 1, fragment);
      if n.Bad? then Bad(n.error, n.offset) else Cons(n.value.1, TokensFrom(t, n.value.0, fragment))
  }

  function Cons(name: string, r: Result<seq<Token>>): Result<seq<Token>>
  {
    if r.Bad? then r else Got([Token(name, IndexOf(name))] + r.value)
  }

  function ParseText(t: string): Result<seq<Token>>
  {
    var fragment := Peek(t, 0) == '#';
    var i := if fragment then 1 else 0;
    if i < |t| && t[i] != '/' then Bad(TokenMustBeginWithSolidus, i) else TokensFrom(t, i, fragment)
  }

  // ---------- What Stringify computes ----------

  /** What stands for the front of a name, and how much of it; None when it is not UTF-8. */
  function Piece(name: string, fragment: bool): (r: Option<(string, nat)>)
    requires name != []
    ensures r.Some? ==> 0 < r.value.1 <= |name|
  {
    if name[0] == '~' then Some(("~0", 1))
    else if name[0] == '/' then Some(("~1", 1))
    else if fragment && NeedPercentEncode(name[0]) then
      if !Utf8.Leads(name) then None else
      var n := Utf8.Needs(name[0]);
      Some((Utf8.PercentTriplets(name[..n]), n))
    else Some(([name[0]], 1))
  }

  function NameText(name: string, fragment: bool): (r: Option<string>)
    decreases |name|
  {
    if name == [] then Some("") else
      var p := Piece(name, fragment);
      if p.None? then None else
      var rest := NameText(name[p.value.1..], fragment);
      if rest.None? then None else Some(p.value.0 + rest.value)
  }

  function Text(ts: seq<Token>, fragment: bool): (r: Option<string>)
  {
    if ts == [] then Some("") else
      var n := NameText(ts[0].name, fragment);
      if n.None? then None else
      var rest := Text(ts[1..], fragment);
      if rest.None? then None else Some("/" + n.value + rest.value)
  }

  function StringifyText(ts: seq<Token>, fragment: bool): Option<string>
  {
    var r := Text(ts, fragment);
    if r.None? then None else Some((if fragment then "#" else "") + r.value)
  }

  // ---------- Plain text: Stringify undoes Parse ----------

  lemma {:induction false} NameBack(t: string, i: nat)
    requires i <= |t| && Name(t, i, false).Got?
    ensures NameText(Name(t, i, false).value.1, false) == Some(t[i..Name(t, i, false).value.0])
    decreases |t| - i
  {
    var r := Name(t, i, false).value;
    if i < |t| && t[i] != '/' {
      var u := Unit(t, i, false).value;
      NameBack(t, u.0);
      var rest := Name(t, u.0, false).value;
      assert r == (rest.0, u.1 + rest.1);
      UnitShown(t, i, rest.1);
      assert r.1[1..] == rest.1;
      assert t[i..u.0] + t[u.0..r.0] == t[i..r.0];
    } else {
      assert t[i..i] == "";
    }
  }

  lemma UnitShown(t: string, i: nat, rest: string)
    requires i < |t| && t[i] != '/' && Unit(t, i, false).Got?
    ensures var u := Unit(t, i, false).value; |u.1| == 1 && Piece(u.1 + rest, false) == Some((t[i..u.0], 1))
  {
    assert t[i..i + 1] == [t[i]];
    if t[i] == '~' { assert t[i..i + 2] == [t[i], t[i + 1]]; }
  }

  lemma {:induction false} TokensBack(t: string, i: nat)
    requires i <= |t| && (i < |t| ==> t[i] == '/') && TokensFrom(t, i, false).Got?
    ensures Text(TokensFrom(t, i, false).value, false) == Some(t[i..])
    decreases |t| - i
  {
    if i < |t| {
      var n := Name(t, i + 1, false).value;
      NameBack(t, i + 1);
      TokensBack(t, n.0);
      TokensShown(t, i, n.0);
    } else {
      assert t[i..] == "";
    }
  }

  lemma TokensShown(t: string, i: nat, j: nat)
    requires i < j <= |t| && t[i] == '/' && (j < |t| ==> t[j] == '/')
    requires Name(t, i + 1, false).Got? && Name(t, i + 1, false).value.0 == j && TokensFrom(t, j, false).Got?
    requires NameText(Name(t, i + 1, false).value.1, false) == Some(t[i + 1..j])
    requires Text(TokensFrom(t, j, false).value, false) == Some(t[j..])
    ensures Text(TokensFrom(t, i, false).value, false) == Some(t[i..])
  {
    var name := Name(t, i + 1, false).value.1;
    TextCons(Token(name, IndexOf(name)), TokensFrom(t, j, false).value, false);
    SlashSlices(t, i, j);
  }

  lemma SlashSlices(t: string, i: nat, j: nat)
    requires i < j <= |t| && t[i] == '/'
    ensures "/" + t[i + 1..j] + t[j..] == t[i..]
  {
  }

  lemma TextCons(tok: Token, rest: seq<Token>, fragment: bool)
    requires NameText(tok.name, fragment).Some? && Text(rest, fragment).Some?
    ensures Text([tok] + rest, fragment) == Some("/" + NameText(tok.name, fragment).value + Text(rest, fragment).value)
  {
    assert ([tok] + rest)[1..] == rest;
  }

  /** Stringify(Parse(s)) is s, for every valid s that is not a fragment. */
  lemma StringifyParse(t: string)
    requires ParseText(t).Got? && Peek(t, 0) != '#'
    ensures StringifyText(ParseText(t).value, false) == Some(t)
  {
    TokensBack(t, 0);
    assert t[0..] == t && "" + t == t;
  }

  // ---------- Both forms: Parse undoes Stringify ----------

  lemma HexBack(c: char)
    requires c as int < 256
    ensures Utf8.Triplet(Utf8.PercentTriplet(c), 0) && Utf8.TripletUnit(Utf8.PercentTriplet(c), 0) == c
  {
  }

  lemma {:induction false} SpelledBack(t: string, i: nat, u: string)
    requires i + 3 * |u| <= |t| && |Utf8.PercentTriplets(u)| == 3 * |u| && t[i..i + 3 * |u|] == Utf8.PercentTriplets(u)
    requires forall k :: 0 <= k < |u| ==> u[k] as int < 256
    ensures u <= Utf8.Spelled(t, i)
    decreases |u|
  {
    if u != [] {
      var p := Utf8.PercentTriplets(u);
      HexBack(u[0]);
      assert t[i] == p[0] && t[i + 1] == p[1] && t[i + 2] == p[2];
      assert p[..3] == Utf8.PercentTriplet(u[0]) && p[3..] == Utf8.PercentTriplets(u[1..]);
      assert t[i + 3..i + 3 * |u|] == p[3..];
      SpelledBack(t, i + 3, u[1..]);
    }
  }

  lemma {:induction false} TripletsLength(u: string)
    ensures |Utf8.PercentTriplets(u)| == 3 * |u|
  {
    if u != [] { TripletsLength(u[1..]); }
  }

  lemma OctetsAreBytes(s: string)
    requires Utf8.CharOctets(s)
    ensures forall k :: 0 <= k < |s| ==> s[k] as int < 256
  {
  }

  lemma LeadsPrefix(u: string, all: string)
    requires u != [] && Utf8.CharOctets(u) && u <= all
    ensures Utf8.Leads(all) && Utf8.Needs(all[0]) == |u| && all[..|u|] == u
  {
    assert all[..|u|] == u;
    Utf8.PrefixCode(all, |u|);
  }

  /** `s` stands at `i` in `t`. */
  predicate StandsAt(t: string, i: nat, s: string) { i + |s| <= |t| && forall k :: 0 <= k < |s| ==> s[k] == t[i + k] }

  lemma StandsSplit(t: string, i: nat, a: string, b: string)
    requires StandsAt(t, i, a + b)
    ensures StandsAt(t, i, a) && StandsAt(t, i + |a|, b)
  {
    assert t[i..i + |a|] == (a + b)[..|a|] && t[i + |a|..i + |a + b|] == (a + b)[|a|..];
  }

  lemma StandsUnits(t: string, i: nat, s: string, k: nat)
    requires StandsAt(t, i, s) && k < |s|
    ensures t[i + k] == s[k]
  {
    assert t[i..i + |s|][k] == t[i + k];
  }

  /** A piece parses back to the units it was made from. */
  lemma UnitBack(t: string, i: nat, name: string, fragment: bool)
    requires name != [] && Piece(name, fragment).Some? && StandsAt(t, i, Piece(name, fragment).value.0)
    ensures var p := Piece(name, fragment).value;
      |p.0| > 0 && t[i] != '/' && Unit(t, i, fragment) == Got((i + |p.0|, name[..p.1]))
  {
    var p := Piece(name, fragment).value;
    if name[0] != '~' && name[0] != '/' && fragment && NeedPercentEncode(name[0]) {
      var u := name[..p.1];
      TripletsLength(u);
      OctetsAreBytes(u);
      SpelledBack(t, i, u);
      LeadsPrefix(u, Utf8.Spelled(t, i));
      StandsUnits(t, i, p.0, 0);
      if |u| == 1 { assert u == [name[0]]; }
    } else {
      assert name[..1] == [name[0]];
      StandsUnits(t, i, p.0, 0);
      if |p.0| > 1 { StandsUnits(t, i, p.0, 1); }
    }
  }

  lemma UnitThenName(t: string, i: nat, i': nat, j: nat, name: string, k: nat, fragment: bool)
    requires i < |t| && t[i] != '/' && i' <= |t| && k <= |name|
    requires Unit(t, i, fragment) == Got((i', name[..k])) && Name(t, i', fragment) == Got((j, name[k..]))
    ensures Name(t, i, fragment) == Got((j, name))
  {
    assert name[..k] + name[k..] == name;
  }

  lemma NameSplit(t: string, i: nat, name: string, fragment: bool)
    requires name != [] && NameText(name, fragment).Some? && StandsAt(t, i, NameText(name, fragment).value)
    ensures Piece(name, fragment).Some? && StandsAt(t, i, Piece(name, fragment).value.0)
    ensures var p := Piece(name, fragment).value; NameText(name[p.1..], fragment).Some?
    ensures var p := Piece(name, fragment).value; var rest := NameText(name[p.1..], fragment).value;
      |NameText(name, fragment).value| == |p.0| + |rest| && StandsAt(t, i + |p.0|, rest)
  {
    var p := Piece(name, fragment).value;
    StandsSplit(t, i, p.0, NameText(name[p.1..], fragment).value);
  }

  lemma {:induction false} NameForth(t: string, i: nat, name: string, fragment: bool)
    requires NameText(name, fragment).Some? && StandsAt(t, i, NameText(name, fragment).value)
    requires var j := i + |NameText(name, fragment).value|; j < |t| ==> t[j] == '/'
    ensures Name(t, i, fragment) == Got((i + |NameText(name, fragment).value|, name))
    decreases |name|
  {
    if name != [] {
      var p, s := Piece(name, fragment).value, NameText(name, fragment).value;
      NameSplit(t, i, name, fragment);
      UnitBack(t, i, name, fragment);
      var j := i + |p.0|;
      NameForth(t, j, name[p.1..], fragment);
      UnitThenName(t, i, j, i + |s|, name, p.1, fragment);
    }
  }

  /** The index every parsed token has. */
  predicate Proper(ts: seq<Token>) { forall k :: 0 <= k < |ts| ==> ts[k].index == IndexOf(ts[k].name) }

  lemma {:induction false} TokensForth(t: string, i: nat, ts: seq<Token>, fragment: bool)
    requires Proper(ts) && Text(ts, fragment).Some? && StandsAt(t, i, Text(ts, fragment).value)
    requires i + |Text(ts, fragment).value| == |t|
    ensures (i < |t| ==> t[i] == '/') && TokensFrom(t, i, fragment) == Got(ts)
    decreases |ts|
  {
    if ts != [] {
      ProperTail(ts);
      TextSplit(t, i, ts, fragment);
      var j := i + 1 + |NameText(ts[0].name, fragment).value|;
      TokensForth(t, j, ts[1..], fragment);
      NameForth(t, i + 1, ts[0].name, fragment);
      NameThenTokens(t, i, j, ts, fragment);
    }
  }

  lemma ProperTail(ts: seq<Token>)
    requires Proper(ts) && ts != []
    ensures Proper(ts[1..]) && ts[0].index == IndexOf(ts[0].name)
  {
  }

  lemma TextSplit(t: string, i: nat, ts: seq<Token>, fragment: bool)
    requires ts != [] && Text(ts, fragment).Some? && StandsAt(t, i, Text(ts, fragment).value)
    ensures NameText(ts[0].name, fragment).Some? && Text(ts[1..], fragment).Some? && i < |t| && t[i] == '/'
    ensures var s, rest := NameText(ts[0].name, fragment).value, Text(ts[1..], fragment).value;
      |Text(ts, fragment).value| == 1 + |s| + |rest| && StandsAt(t, i + 1, s) && StandsAt(t, i + 1 + |s|, rest)
  {
    var s, rest := TextParts(ts, fragment);
    HeadStands(t, i, s, rest);
  }

  lemma TextParts(ts: seq<Token>, fragment: bool) returns (s: string, rest: string)
    requires ts != [] && Text(ts, fragment).Some?
    ensures NameText(ts[0].name, fragment) == Some(s) && Text(ts[1..], fragment) == Some(rest)
    ensures Text(ts, fragment).value == "/" + s + rest
  {
    s, rest := NameText(ts[0].name, fragment).value, Text(ts[1..], fragment).value;
  }

  lemma NameThenTokens(t: string, i: nat, j: nat, ts: seq<Token>, fragment: bool)
    requires i < |t| && t[i] == '/' && j <= |t| && ts != [] && ts[0].index == IndexOf(ts[0].name) && (j < |t| ==> t[j] == '/')
    requires Name(t, i + 1, fragment) == Got((j, ts[0].name)) && TokensFrom(t, j, fragment) == Got(ts[1..])
    ensures TokensFrom(t, i, fragment) == Got(ts)
  {
    assert [ts[0]] + ts[1..] == ts;
  }

  lemma HeadStands(t: string, i: nat, s: string, rest: string)
    requires StandsAt(t, i, "/" + s + rest)
    ensures t[i] == '/' && StandsAt(t, i + 1, s) && StandsAt(t, i + 1 + |s|, rest)
  {
    StandsSplit(t, i, "/" + s, rest);
    StandsSplit(t, i, "/", s);
    StandsUnits(t, i, "/", 0);
  }

  /** Parse(Stringify(p)) is p, for every pointer with parsed indices, in both forms. */
  lemma ParseStringify(ts: seq<Token>, fragment: bool)
    requires Proper(ts) && StringifyText(ts, fragment).Some?
    ensures ParseText(StringifyText(ts, fragment).value) == Got(ts)
  {
    var t, i := StringifyText(ts, fragment).value, if fragment then 1 else 0;
    assert t[i..] == Text(ts, fragment).value;
    TokensForth(t, i, ts, fragment);
  }

  // ---------- When Stringify succeeds ----------

  lemma {:induction false} NameTextWhen(name: string, fragment: bool)
    ensures NameText(name, fragment).Some? <==> !fragment || Utf8.WellFormed(name)
    decreases |name|
  {
    if name != [] {
      Utf8.WellFormedStep(name);
      var p := Piece(name, fragment);
      if p.Some? { NameTextWhen(name[p.value.1..], fragment); }
      if fragment && !NeedPercentEncode(name[0]) { AsciiLeads(name); }
      if name[0] == '/' { AsciiLeads(name); }
    }
  }

  lemma AsciiLeads(s: string)
    requires s != [] && s[0] as int < 0x80
    ensures Utf8.Leads(s) && Utf8.Needs(s[0]) == 1
  {
  }

  /** Only a fragment can fail, and exactly when some name is not UTF-8. */
  lemma {:induction false} StringifiesWhen(ts: seq<Token>, fragment: bool)
    ensures StringifyText(ts, fragment).Some? <==> !fragment || forall k :: 0 <= k < |ts| ==> Utf8.WellFormed(ts[k].name)
  {
    if ts != [] {
      NameTextWhen(ts[0].name, fragment);
      StringifiesWhen(ts[1..], fragment);
      assert forall k :: 0 < k < |ts| ==> ts[1..][k - 1] == ts[k];
    }
  }

  function Solidi(t: string, i: nat): nat
    decreases |t| - i
  {
    if i >= |t| then 0 else (if t[i] == '/' then 1 else 0) + Solidi(t, i + 1)
  }

  lemma {:induction false} NoSolidus(t: string, i: nat, j: nat)
    requires i <= j <= |t| && forall k :: i <= k < j ==> t[k] != '/'
    ensures Solidi(t, i) == Solidi(t, j)
    decreases j - i
  {
    if i < j { NoSolidus(t, i + 1, j); }
  }

  lemma {:induction false} SpelledNoSolidus(t: string, i: nat, n: nat)
    requires i <= |t| && n <= |Utf8.Spelled(t, i)|
    ensures i + 3 * n <= |t| && Solidi(t, i) == Solidi(t, i + 3 * n)
    decreases n
  {
    if n > 0 {
      SpelledNoSolidus(t, i + 3, n - 1);
      NoSolidus(t, i, i + 3);
    }
  }

  lemma UnitNoSolidus(t: string, i: nat, fragment: bool)
    requires i < |t| && t[i] != '/' && Unit(t, i, fragment).Got?
    ensures Solidi(t, Unit(t, i, fragment).value.0) == Solidi(t, i)
  {
    var j := Unit(t, i, fragment).value.0;
    if fragment && t[i] == '%' {
      var u := Utf8.Spelled(t, i);
      var n := Utf8.Needs(u[0]);
      SpelledNoSolidus(t, i, n);
      if n == 1 { NoSolidus(t, i + 3, j); }
    } else {
      NoSolidus(t, i, j);
    }
  }

  lemma {:induction false} NameNoSolidus(t: string, i: nat, fragment: bool)
    requires i <= |t| && Name(t, i, fragment).Got?
    ensures Solidi(t, Name(t, i, fragment).value.0) == Solidi(t, i)
    decreases |t| - i
  {
    if i < |t| && t[i] != '/' {
      UnitNoSolidus(t, i, fragment);
      NameNoSolidus(t, Unit(t, i, fragment).value.0, fragment);
    }
  }

  /** A valid text gives as many tokens as it has solidi, so the token array allocated by counting them fits. */
  lemma {:induction false} TokensFit(t: string, i: nat, fragment: bool)
    requires i <= |t| && (i < |t| ==> t[i] == '/') && TokensFrom(t, i, fragment).Got?
    ensures |TokensFrom(t, i, fragment).value| == Solidi(t, i)
    decreases |t| - i
  {
    if i < |t| {
      NameNoSolidus(t, i + 1, fragment);
      TokensFit(t, Name(t, i + 1, fragment).value.0, fragment);
    }
  }

  // ---------- The pointer object ----------

  lemma BeforeBefore(a: string, b: string, r: Result<(nat, string)>)
    ensures Before(a, Before(b, r)) == Before(a + b, r)
  {
    if r.Got? { assert a + (b + r.value.1) == (a + b) + r.value.1; }
  }

  function After(ts: seq<Token>, r: Result<seq<Token>>): Result<seq<Token>>
  {
    if r.Bad? then r else Got(ts + r.value)
  }

  lemma AfterCons(ts: seq<Token>, name: string, r: Result<seq<Token>>)
    ensures After(ts, Cons(name, r)) == After(ts + [Token(name, IndexOf(name))], r)
  {
    if r.Got? { assert ts + ([Token(name, IndexOf(name))] + r.value) == (ts + [Token(name, IndexOf(name))]) + r.value; }
  }

  function Prepend(p: string, r: Option<string>): Option<string> { if r.None? then r else Some(p + r.value) }

  lemma PrependPrepend(a: string, b: string, r: Option<string>)
    ensures Prepend(a, Prepend(b, r)) == Prepend(a + b, r)
  {
    if r.Some? { assert a + (b + r.value) == (a + b) + r.value; }
  }

  class Pointer {
    var tokens: seq<Token>
    var names: string              // nameBuffer_, up to the cursor
    var error: Option<PointerError>
    var offset: nat
    ghost var reach: nat           // one past the last unit ever written to nameBuffer_

    constructor ()
      ensures tokens == [] && names == [] && error == None && reach == 0
    {
      tokens, names, error, offset, reach := [], [], None, 0, 0;
    }

    /** All that was written lies within a buffer of the source's length. */
    ghost predicate Inside(source: string)
      reads this
    {
      |names| <= reach <= |source|
    }

    /** The buffer was written up to `n`. */
    ghost method Reached(n: nat)
      modifies `reach
      ensures reach == if n > old(reach) then n else old(reach)
    {
      reach := if n > reach then n else reach;
    }

    method Fail(code: PointerError, i: nat)
      modifies `tokens, `names, `error, `offset
      ensures names == [] && tokens == [] && error == Some(code) && offset == i
    {
      tokens, names, error, offset := [], [], Some(code), i;
    }

    /** The index of a token, from its name and whether all of that is digits. */
    method Index(name: string, digits: bool) returns (index: int)
      requires digits == AllDigits(name)
      ensures index == IndexOf(name)
    {
      var isNumber := digits && name != [];
      if isNumber && |name| > 1 && name[0] == '0' { isNumber := false; }
      var n := 0;
      if isNumber {
        var j := 0;
        while j < |name|
          invariant 0 <= j <= |name| && 0 <= n < WIDTH && Convert(name, 0, 0) == Convert(name, j, n)
        {
          var m := (n * 10 + DigitVal(name[j])) % WIDTH;
          if m < n {
            isNumber := false;
            break;
          }
          n := m;
          j := j + 1;
        }
      }
      index := if isNumber then n else INVALID_INDEX;
    }

    /** The escape that `c`, just before `i0`, may start; the unit goes into the name. */
    method ParseEscape(source: string, i0: nat, c0: char) returns (i: nat, c: char)
      requires i0 <= |source| && error == None && Inside(source) && |names| < |source|
      modifies this
      ensures Inside(source) && old(reach) <= reach
      ensures match Unescape(source, i0, c0)
        case Got(r) => error == None && (i, [c]) == r && names == old(names) + [c] && tokens == old(tokens)
        case Bad(e, o) => error == Some(e) && offset == o && tokens == []
    {
      i, c := i0, c0;
      if c == '~' {
        if i < |source| && source[i] == '0' {
          c := '~';
        } else if i < |source| && source[i] == '1' {
          c := '/';
        } else {
          Fail(InvalidEscape, i);
          return;
        }
        i := i + 1;
      }
      names := names + [c];
      Reached(|names|);
    }

    /** A percent-encoded UTF8-char: into the name, unless it is one octet, which may start an escape. */
    method ParsePercent(source: string, i0: nat) returns (i: nat, digit: bool)
      requires i0 < |source| && source[i0] == '%' && error == None && |names| + 2 <= i0 && Inside(source)
      modifies this
      ensures Inside(source) && old(reach) <= reach
      ensures match Unit(source, i0, true)
        case Got(r) => error == None && i == r.0 && names == old(names) + r.1 && digit == AllDigits(r.1) && tokens == old(tokens)
        case Bad(e, o) => error == Some(e) && offset == o && tokens == []
    {
      i, digit := i0, false;
      var src := new Utf8.InputStream(source, true, i);
      var os := new Utf8.OutputStream();
      ghost var spelled := src.Left();
      SpelledLength(source, i);
      var ok := Utf8.Validate(src, os);
      Reached(|names| + |os.out|);
      if !ok || !src.valid {
        Fail(InvalidPercentEncoding, i);
        return;
      }
      assert os.out == spelled[..Utf8.Needs(spelled[0])];
      i := i + (src.pos - i0) - 1;
      if |os.out| == 1 {
        var c;
        i, c := ParseEscape(source, i + 1, os.out[0]);
        digit := Digit(c);
        assert AllDigits([c]) == Digit([c][0]);
      } else {
        MultiOctet(os.out);
        names := names + os.out;
        i := i + 1;
      }
    }

    lemma MultiOctet(s: string)
      requires Utf8.CharOctets(s) && |s| > 1
      ensures !AllDigits(s)
    {
      assert !Digit(s[0]);
    }

    method ParseUnit(source: string, i0: nat, uriFragment: bool) returns (i: nat, digit: bool)
      requires i0 < |source| && error == None && |names| + (if uriFragment then 2 else 1) <= i0 && Inside(source)
      modifies this
      ensures Inside(source) && old(reach) <= reach
      ensures match Unit(source, i0, uriFragment)
        case Got(r) => error == None && i == r.0 && names == old(names) + r.1 && digit == AllDigits(r.1) && tokens == old(tokens)
        case Bad(e, o) => error == Some(e) && offset == o && tokens == []
    {
      i, digit := i0, false;
      var c := source[i];
      if uriFragment && c == '%' {
        i, digit := ParsePercent(source, i);
        return;
      }
      if uriFragment && NeedPercentEncode(c) {
        Fail(CharacterMustPercentEncode, i);
        return;
      }
      i, c := ParseEscape(source, i + 1, c);
      digit := Digit(c);
      assert AllDigits([c]) == Digit([c][0]);
    }

    lemma DigitsConcat(a: string, b: string)
      ensures AllDigits(a + b) <==> AllDigits(a) && AllDigits(b)
    {
      if AllDigits(a + b) {
        assert forall k :: 0 <= k < |a| ==> a[k] == (a + b)[k];
        assert forall k :: 0 <= k < |b| ==> b[k] == (a + b)[|a| + k];
      }
    }

    /** The units of a token are never more than the characters they come from. */
    lemma UnitShrinks(source: string, i: nat, fragment: bool)
      requires i < |source| && Unit(source, i, fragment).Got?
      ensures var r := Unit(source, i, fragment).value; |r.1| <= r.0 - i
    {
    }

    lemma Grown(before: string, name: string, units: string)
      ensures (before + name + units)[|before|..] == name + units && before + name + units == before + (name + units)
    {
    }

    method ParseName(source: string, i0: nat, uriFragment: bool) returns (i: nat, name: string, isNumber: bool)
      requires i0 <= |source| && error == None && |names| + (if uriFragment then 2 else 1) <= i0 && Inside(source)
      modifies this
      ensures Inside(source) && old(reach) <= reach
      ensures match Name(source, i0, uriFragment)
        case Got(r) =>
          && error == None && i == r.0 && name == r.1 && names == old(names) + name && isNumber == AllDigits(name) && tokens == old(tokens)
          && |names| + (if uriFragment then 2 else 1) <= i
        case Bad(e, o) => error == Some(e) && offset == o && tokens == []
    {
      i, name, isNumber := i0, "", true;
      var start := |names|;
      ghost var all := Name(source, i0, uriFragment);
      if all.Got? { assert "" + all.value.1 == all.value.1; }
      while i < |source| && source[i] != '/'
        invariant i <= |source| && error == None && tokens == old(tokens) && names == old(names) + name
        invariant |names| + (if uriFragment then 2 else 1) <= i && Inside(source) && old(reach) <= reach
        invariant all == Before(name, Name(source, i, uriFragment)) && isNumber == AllDigits(name)
        decreases |source| - i
      {
        var j, digit := ParseUnit(source, i, uriFragment);
        if error != None { return; }
        ghost var units := Unit(source, i, uriFragment).value.1;
        UnitShrinks(source, i, uriFragment);
        BeforeBefore(name, units, Name(source, j, uriFragment));
        DigitsConcat(name, units);
        isNumber := isNumber && digit;
        Grown(old(names), name, units);
        name := names[start..];
        i := j;
      }
      assert name + "" == name;
    }

    /** One token, from its solidus on. */
    method ParseToken(source: string, i0: nat, uriFragment: bool, ghost all: Result<seq<Token>>) returns (i: nat)
      requires i0 < |source| && source[i0] == '/' && error == None
      requires |names| + (if uriFragment then 1 else 0) <= i0 && Inside(source)
      requires all == After(tokens, TokensFrom(source, i0, uriFragment))
      modifies this
      ensures Inside(source) && old(reach) <= reach
      ensures
        if error == None then
          && i0 < i <= |source| && (i < |source| ==> source[i] == '/') && |names| + (if uriFragment then 1 else 0) <= i
          && all == After(tokens, TokensFrom(source, i, uriFragment))
        else all == Bad(error.value, offset) && tokens == []
    {
      var name, isNumber;
      i, name, isNumber := ParseName(source, i0 + 1, uriFragment);
      if error != None { return; }
      names := names + [NUL];
      Reached(|names|);
      var index := Index(name, isNumber);
      AfterCons(tokens, name, TokensFrom(source, i, uriFragment));
      tokens := tokens + [Token(name, index)];
    }

    method Parse(source: string)
      requires tokens == [] && names == [] && error == None && reach == 0
      modifies this
      ensures |names| <= reach <= |source|
      ensures match ParseText(source)
        case Got(ts) => error == None && tokens == ts && |tokens| == Solidi(source, 0)
        case Bad(e, o) => error == Some(e) && offset == o && tokens == []
    {
      var i, uriFragment := 0, false;
      if Peek(source, i) == '#' {
        uriFragment := true;
        i := i + 1;
      }
      if i != |source| && source[i] != '/' {
        Fail(TokenMustBeginWithSolidus, i);
        return;
      }
      ghost var all := TokensFrom(source, i, uriFragment);
      if all.Got? { assert [] + all.value == all.value; }
      if all.Got? {
        TokensFit(source, i, uriFragment);
        NoSolidus(source, 0, i);
      }
      while i < |source|
        invariant i <= |source| && error == None && (i < |source| ==> source[i] == '/')
        invariant |names| + (if uriFragment then 1 else 0) <= i && Inside(source)
        invariant all == After(tokens, TokensFrom(source, i, uriFragment))
        decreases |source| - i
      {
        i := ParseToken(source, i, uriFragment, all);
        if error != None { return; }
      }
      assert tokens + [] == tokens;
    }

    /** A code point that needs percent-encoding: each of its octets as a triplet; `j` stays on the last of them. */
    method StringifyPercent(os: Utf8.OutputStream, name: string, j0: nat) returns (ok: bool, j: nat)
      requires !os.percent && j0 < |name|
      modifies os
      ensures !os.percent && ok == Utf8.Leads(name[j0..])
      ensures ok ==> var n := Utf8.Needs(name[j0]);
        os.out == old(os.out) + Utf8.PercentTriplets(name[j0..][..n]) && j == j0 + n - 1
    {
      j := j0;
      var src := new Utf8.InputStream(name, false, j);
      os.percent := true;
      ok := Utf8.Validate(src, os);
      os.percent := false;
      if ok { j := j + (src.pos - j) - 1; }
    }

    method StringifyUnit(os: Utf8.OutputStream, name: string, j0: nat, uriFragment: bool) returns (ok: bool, j: nat)
      requires !os.percent && j0 < |name|
      modifies os
      ensures !os.percent && ok == Piece(name[j0..], uriFragment).Some?
      ensures ok ==> var p := Piece(name[j0..], uriFragment).value; os.out == old(os.out) + p.0 && j == j0 + p.1
    {
      ok, j := true, j0;
      var c := name[j];
      if c == '~' {
        os.Put('~');
        os.Put('0');
      } else if c == '/' {
        os.Put('~');
        os.Put('1');
      } else if uriFragment && NeedPercentEncode(c) {
        ok, j := StringifyPercent(os, name, j);
        if !ok { return; }
      } else {
        os.Put(c);
      }
      j := j + 1;
    }

    /** One round of the loop over a name; `all` is what the rounds so far and the rest of them write. */
    method StringifyNext(os: Utf8.OutputStream, name: string, j0: nat, uriFragment: bool, ghost all: Option<string>)
      returns (ok: bool, j: nat)
      requires !os.percent && j0 < |name| && all == Prepend(os.out, NameText(name[j0..], uriFragment))
      modifies os
      ensures !os.percent
      ensures if ok then j0 < j <= |name| && all == Prepend(os.out, NameText(name[j..], uriFragment)) else all == None
    {
      ghost var p := NextPiece(name, j0, uriFragment, os.out, all);
      ok, j := StringifyUnit(os, name, j0, uriFragment);
    }

    method StringifyName(os: Utf8.OutputStream, name: string, uriFragment: bool) returns (ok: bool)
      requires !os.percent
      modifies os
      ensures !os.percent && ok == NameText(name, uriFragment).Some?
      ensures ok ==> os.out == old(os.out) + NameText(name, uriFragment).value
    {
      var j := 0;
      ghost var all := Prepend(os.out, NameText(name, uriFragment));
      assert name[0..] == name;
      while j < |name|
        invariant 0 <= j <= |name| && !os.percent
        invariant all == Prepend(os.out, NameText(name[j..], uriFragment))
      {
        ok, j := StringifyNext(os, name, j, uriFragment, all);
        if !ok { return; }
      }
      ok := true;
      assert os.out + "" == os.out;
    }

    lemma NextPiece(name: string, j: nat, fragment: bool, done: string, all: Option<string>) returns (p: Option<(string, nat)>)
      requires j < |name| && all == Prepend(done, NameText(name[j..], fragment))
      ensures p == Piece(name[j..], fragment) && (p.None? ==> all.None?)
      ensures p.Some? ==> j + p.value.1 <= |name|
      ensures p.Some? ==> all == Prepend(done + p.value.0, NameText(name[j + p.value.1..], fragment))
    {
      p := Piece(name[j..], fragment);
      if p.Some? {
        assert name[j..][p.value.1..] == name[j + p.value.1..];
        PrependPrepend(done, p.value.0, NameText(name[j + p.value.1..], fragment));
      }
    }

    method Stringify(uriFragment: bool) returns (ok: bool, out: string)
      ensures if ok then StringifyText(tokens, uriFragment) == Some(out) else StringifyText(tokens, uriFragment) == None
    {
      var os := new Utf8.OutputStream();
      if uriFragment { os.Put('#'); }
      assert tokens[0..] == tokens && os.out == if uriFragment then "#" else "";
      var k := 0;
      while k < |tokens|
        invariant 0 <= k <= |tokens| && !os.percent
        invariant StringifyText(tokens, uriFragment) == Prepend(os.out, Text(tokens[k..], uriFragment))
      {
        ghost var before := os.out;
        os.Put('/');
        var good := StringifyName(os, tokens[k].name, uriFragment);
        if !good { return false, os.out; }
        TokenDone(tokens, k, uriFragment, before);
        k := k + 1;
      }
      ok, out := true, os.out;
      assert out + "" == out;
    }

    lemma TokenDone(ts: seq<Token>, k: nat, fragment: bool, before: string)
      requires k < |ts| && NameText(ts[k].name, fragment).Some?
      ensures Prepend(before, Text(ts[k..], fragment)) ==
        Prepend(before + "/" + NameText(ts[k].name, fragment).value, Text(ts[k + 1..], fragment))
    {
      assert ts[k..][1..] == ts[k + 1..];
      var rest := Text(ts[k + 1..], fragment);
      if rest.Some? {
        assert before + ("/" + NameText(ts[k].name, fragment).value + rest.value)
            == before + "/" + NameText(ts[k].name, fragment).value + rest.value;
      }
    }
  }
}
