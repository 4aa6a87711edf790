/** Base64 of strings and of lists of strings: src/utils/b64.py, over section 4 of RFC 4648. */
module Base64 {
  import opened Sequences
  import opened Strings
  import opened Utf8

  type Sextet = x: int | 0 <= x < 64

  /** What one character of a text stands for. */
  datatype Symbol = Digit(n: Sextet) | Pad | Foreign

  function First(p: int, q: int): int {
    p * 4 + q / 16
  }

  function Second(q: int, r: int): int {
    q % 16 * 16 + r / 4
  }

  function Third(r: int, t: int): int {
    r % 4 * 64 + t
  }

  function High(a: int): int {
    a / 4
  }

  function Middle(a: int, b: int): int {
    a % 4 * 16 + b / 16
  }

  function Low(b: int, c: int): int {
    b % 16 * 4 + c / 64
  }

  /** Three bytes as four sextets and back. */
  lemma SextetsOfBytes(a: Byte, b: Byte, c: Byte)
    ensures High(a) < 64 && Middle(a, b) < 64 && Low(b, c) < 64
    ensures First(High(a), Middle(a, b)) == a
    ensures Second(Middle(a, b), Low(b, c)) == b
    ensures Third(Low(b, c), c % 64) == c
  {
  }

  function Group(a: Byte, b: Byte, c: Byte): seq<Symbol> {
    [Digit(High(a)), Digit(Middle(a, b)), Digit(Low(b, c)), Digit(c % 64)]
  }

  function Pack(bs: seq<Byte>): seq<Symbol> {
    if bs == [] then []
    else if |bs| == 1 then [Digit(High(bs[0])), Digit(Middle(bs[0], 0)), Pad, Pad]
    else if |bs| == 2 then [Digit(High(bs[0])), Digit(Middle(bs[0], bs[1])), Digit(Low(bs[1], 0)), Pad]
    else Group(bs[0], bs[1], bs[2]) + Pack(bs[3..])
  }

  function Unpack(vs: seq<Symbol>): Option<seq<Byte>> {
    if vs == [] then Some([])
    else if |vs| < 4 then None
    else
      match (vs[0], vs[1], vs[2], vs[3])
      case (Digit(p), Digit(q), Pad, Pad) => if |vs| == 4 then Some([First(p, q)]) else None
      case (Digit(p), Digit(q), Digit(r), Pad) => if |vs| == 4 then Some([First(p, q), Second(q, r)]) else None
      case (Digit(p), Digit(q), Digit(r), Digit(t)) =>
        var rest := Unpack(vs[4..]);
        if rest.None? then None else Some([First(p, q), Second(q, r), Third(r, t)] + rest.value)
      case _ => None
  }

  lemma UnpackGroup(p: Sextet, q: Sextet, r: Sextet, t: Sextet, vs: seq<Symbol>)
    requires Unpack(vs).Some?
    ensures Unpack([Digit(p), Digit(q), Digit(r), Digit(t)] + vs)
         == Some([First(p, q), Second(q, r), Third(r, t)] + Unpack(vs).value)
  {
  }

  lemma OneByte(a: Byte, none: Byte)
    requires none == 0
    ensures Unpack([Digit(High(a)), Digit(Middle(a, none)), Pad, Pad]) == Some([a])
  {
    SextetsOfBytes(a, none, none);
  }

  lemma TwoBytes(a: Byte, b: Byte)
    ensures Unpack([Digit(High(a)), Digit(Middle(a, b)), Digit(Low(b, 0)), Pad]) == Some([a, b])
  {
    SextetsOfBytes(a, b, 0);
  }

  ghost predicate StandsFor(vs: seq<Symbol>, bs: seq<Byte>) {
    Unpack(vs) == Some(bs)
  }

  lemma {:induction false} PackRoundTrip(bs: seq<Byte>)
    ensures StandsFor(Pack(bs), bs)
  {
    if |bs| == 1 {
      OneByte(bs[0], 0);
      assert bs == [bs[0]];
    } else if |bs| == 2 {
      TwoBytes(bs[0], bs[1]);
      assert bs == [bs[0], bs[1]];
    } else if |bs| > 2 {
      PackRoundTrip(bs[3..]);
      GroupRoundTrip(bs[0], bs[1], bs[2], Pack(bs[3..]));
      assert bs == [bs[0], bs[1], bs[2]] + bs[3..];
    }
  }

  lemma GroupRoundTrip(a: Byte, b: Byte, c: Byte, vs: seq<Symbol>)
    requires Unpack(vs).Some?
    ensures Unpack(Group(a, b, c) + vs) == Some([a, b, c] + Unpack(vs).value)
  {
    SextetsOfBytes(a, b, c);
    UnpackGroup(High(a), Middle(a, b), Low(b, c), c % 64, vs);
  }

  function Number24(a: int, b: int, c: int): int {
    (a * 256 + b) * 256 + c
  }

  function Sextets(p: int, q: int, r: int, t: int): int {
    ((p * 64 + q) * 64 + r) * 64 + t
  }

  /** The bytes three by three as numbers of 24 bits, with zero bytes added at the end. */
  function ByteGroups(bs: seq<Byte>): seq<int> {
    if bs == [] then []
    else if |bs| == 1 then [Number24(bs[0], 0, 0)]
    else if |bs| == 2 then [Number24(bs[0], bs[1], 0)]
    else [Number24(bs[0], bs[1], bs[2])] + ByteGroups(bs[3..])
  }

  function ValueOf(v: Symbol): int {
    if v.Digit? then v.n else 0
  }

  function SextetGroups(vs: seq<Symbol>): seq<int> {
    if |vs| < 4 then []
    else [Sextets(ValueOf(vs[0]), ValueOf(vs[1]), ValueOf(vs[2]), ValueOf(vs[3]))] + SextetGroups(vs[4..])
  }

  lemma SameNumber(a: Byte, b: Byte, c: Byte)
    ensures Sextets(High(a), Middle(a, b), Low(b, c), c % 64) == Number24(a, b, c)
  {
  }

  lemma GroupThen(p: Symbol, q: Symbol, r: Symbol, t: Symbol, vs: seq<Symbol>)
    ensures SextetGroups([p, q, r, t] + vs)
         == [Sextets(ValueOf(p), ValueOf(q), ValueOf(r), ValueOf(t))] + SextetGroups(vs)
  {
    assert ([p, q, r, t] + vs)[4..] == vs;
  }

  /** Packing writes the same numbers of 24 bits, four sextets each, padding standing for the zeros added (section 4 of
      RFC 4648). */
  lemma {:induction false} PackKeepsBits(bs: seq<Byte>)
    ensures SextetGroups(Pack(bs)) == ByteGroups(bs)
  {
    if |bs| == 1 {
      SameNumber(bs[0], 0, 0);
      GroupThen(Digit(High(bs[0])), Digit(Middle(bs[0], 0)), Pad, Pad, []);
    } else if |bs| == 2 {
      SameNumber(bs[0], bs[1], 0);
      GroupThen(Digit(High(bs[0])), Digit(Middle(bs[0], bs[1])), Digit(Low(bs[1], 0)), Pad, []);
    } else if |bs| > 2 {
      PackKeepsBits(bs[3..]);
      SameNumber(bs[0], bs[1], bs[2]);
      var g := Group(bs[0], bs[1], bs[2]);
      GroupThen(g[0], g[1], g[2], g[3], Pack(bs[3..]));
    }
  }

  lemma {:induction false} PackLength(bs: seq<Byte>)
    ensures |Pack(bs)| == (|bs| + 2) / 3 * 4
  {
    if |bs| > 2 {
      PackLength(bs[3..]);
      assert (|bs| + 2) / 3 == (|bs[3..]| + 2) / 3 + 1;
    }
  }

  lemma {:induction false} PackSymbols(bs: seq<Byte>)
    ensures forall v :: v in Pack(bs) ==> !v.Foreign?
  {
    if |bs| > 2 {
      PackSymbols(bs[3..]);
      assert forall v :: v in Group(bs[0], bs[1], bs[2]) ==> v.Digit?;
    }
  }

  function Render(v: Symbol): char {
    match v
    case Digit(n) =>
      if n < 26 then 'A' + n as char
      else if n < 52 then 'a' + (n - 26) as char
      else if n < 62 then '0' + (n - 52) as char
      else if n == 62 then '+' else '/'
    case Pad => '='
    case Foreign => '?'
  }

  function Parse(c: char): Symbol {
    if 'A' <= c <= 'Z' then Digit((c - 'A') as int)
    else if 'a' <= c <= 'z' then Digit((c - 'a') as int + 26)
    else if '0' <= c <= '9' then Digit((c - '0') as int + 52)
    else if c == '+' then Digit(62)
    else if c == '/' then Digit(63)
    else if c == '=' then Pad
    else Foreign
  }

  lemma ParseRender(v: Symbol)
    ensures Parse(Render(v)) == v
  {
  }

  function Renderer(): Symbol -> char {
    (v: Symbol) => Render(v)
  }

  function Parser(): char -> Symbol {
    (c: char) => Parse(c)
  }

  function EncodeBytes(bs: seq<Byte>): string {
    Map(Renderer(), Pack(bs))
  }

  function DecodeBytes(s: string): Option<seq<Byte>> {
    Unpack(Map(Parser(), s))
  }

  lemma ParseText(vs: seq<Symbol>)
    ensures Map(Parser(), Map(Renderer(), vs)) == vs
  {
  }

  lemma BytesRoundTrip(bs: seq<Byte>)
    ensures DecodeBytes(EncodeBytes(bs)) == Some(bs)
  {
    ParseText(Pack(bs));
    PackRoundTrip(bs);
  }

  predicate InAlphabet(c: char) {
    !Parse(c).Foreign?
  }

  lemma OnlyAlphabet(bs: seq<Byte>)
    ensures forall c :: c in EncodeBytes(bs) ==> InAlphabet(c)
    ensures EncodeBytes(bs) == "" <==> bs == []
  {
    var s := EncodeBytes(bs);
    PackSymbols(bs);
    PackLength(bs);
    forall i | 0 <= i < |s| ensures InAlphabet(s[i]) {
      ParseRender(Pack(bs)[i]);
    }
  }

  // ---- Strings and lists of strings -----------------------------------------------------

  function ToB64(s: string): string {
    EncodeBytes(Encode(s))
  }

  function FromB64(s: string): Option<string> {
    var bs := DecodeBytes(s);
    if bs.None? then None else Decode(bs.value)
  }

  lemma B64RoundTrip(s: string)
    ensures FromB64(ToB64(s)) == Some(s)
  {
    BytesRoundTrip(Encode(s));
    EncodedDecodes(s);
  }

  const SEPARATOR: char := ':'

  const EMPTY_ELEMENT: string := "\"\""

  function EncodeElement(s: string): string {
    if s == "" then EMPTY_ELEMENT else ToB64(s)
  }

  function DecodeElement(s: string): Option<string> {
    if s == EMPTY_ELEMENT then Some("") else FromB64(s)
  }

  function Encoder(): string -> string {
    (s: string) => EncodeElement(s)
  }

  function ToB64List(xs: seq<string>): string {
    Join(Map(Encoder(), xs), SEPARATOR)
  }

  function DecodeAll(es: seq<string>): Option<seq<string>> {
    if es == [] then Some([])
    else
      var first, rest := DecodeElement(es[0]), DecodeAll(es[1..]);
      if first.None? || rest.None? then None else Some([first.value] + rest.value)
  }

  function FromB64List(s: string): Option<seq<string>> {
    if s == "" then Some([]) else DecodeAll(Split(s, SEPARATOR))
  }

  lemma ElementShape(s: string)
    ensures EncodeElement(s) != "" && SEPARATOR !in EncodeElement(s)
    ensures EncodeElement(s) == EMPTY_ELEMENT <==> s == ""
    ensures forall c :: c in EncodeElement(s) ==> InAlphabet(c) || c == '"'
    ensures s != "" ==> '"' !in EncodeElement(s)
  {
    OnlyAlphabet(Encode(s));
    if s != "" {
      assert InAlphabet(ToB64(s)[0]);
      assert '"' in EMPTY_ELEMENT && !InAlphabet('"') && !InAlphabet(SEPARATOR);
    }
  }

  lemma {:induction false} ElementsRoundTrip(xs: seq<string>)
    ensures DecodeAll(Map(Encoder(), xs)) == Some(xs)
  {
    if xs != [] {
      ElementsRoundTrip(xs[1..]);
      assert Map(Encoder(), xs)[1..] == Map(Encoder(), xs[1..]);
      ElementShape(xs[0]);
      B64RoundTrip(xs[0]);
      assert xs == [xs[0]] + xs[1..];
    }
  }

  /** Every list of strings comes back, the empty list and empty elements included. */
  lemma ListRoundTrip(xs: seq<string>)
    ensures FromB64List(ToB64List(xs)) == Some(xs)
  {
    var es := Map(Encoder(), xs);
    forall e | e in es ensures SEPARATOR !in e {
      var i :| 0 <= i < |xs| && es[i] == e;
      ElementShape(xs[i]);
    }
    if xs != [] {
      SplitJoin(es, SEPARATOR);
      ElementShape(xs[0]);
      assert es[0] != "";
      ElementsRoundTrip(xs);
    }
  }

  lemma ListsDiffer(xs: seq<string>, ys: seq<string>)
    ensures ToB64List(xs) == ToB64List(ys) <==> xs == ys
  {
    ListRoundTrip(xs);
    ListRoundTrip(ys);
  }

  // ---- Prefixes -------------------------------------------------------------------------

  lemma FourAlike<T>(p: T, q: T, r: T, t: T, u: T, v: T, w: T, x: T)
    ensures [p, q, r, t] == [u, v, w, x] <==> p == u && q == v && r == w && t == x
  {
  }

  lemma SextetsDiffer(a: Byte, b: Byte, c: Byte, d: Byte, e: Byte, f: Byte)
    requires High(a) == High(d) && Middle(a, b) == Middle(d, e) && Low(b, c) == Low(e, f) && c % 64 == f % 64
    ensures a == d && b == e && c == f
  {
  }

  lemma GroupsDiffer(a: Byte, b: Byte, c: Byte, d: Byte, e: Byte, f: Byte)
    ensures Group(a, b, c) == Group(d, e, f) <==> a == d && b == e && c == f
  {
    FourAlike(Digit(High(a)), Digit(Middle(a, b)), Digit(Low(b, c)), Digit(c % 64),
              Digit(High(d)), Digit(Middle(d, e)), Digit(Low(e, f)), Digit(f % 64));
    if Group(a, b, c) == Group(d, e, f) { SextetsDiffer(a, b, c, d, e, f); }
  }

  lemma ThreeAlike<T>(x: seq<T>, y: seq<T>)
    requires |x| >= 3 && |y| >= 3
    ensures x[..3] == y[..3] <==> x[0] == y[0] && x[1] == y[1] && x[2] == y[2]
  {
  }

  /** Whole groups in front: the symbols go on alike exactly when the bytes do. */
  lemma GroupPrefix(x: seq<Byte>, y: seq<Byte>)
    requires |x| >= 3 && |y| >= 3
    ensures Pack(x) <= Pack(y) <==> x[..3] == y[..3] && Pack(x[3..]) <= Pack(y[3..])
  {
    var g, h := Group(x[0], x[1], x[2]), Group(y[0], y[1], y[2]);
    assert Pack(x) == g + Pack(x[3..]) && Pack(y) == h + Pack(y[3..]);
    SameLengthHeads(g, h, Pack(x[3..]), Pack(y[3..]));
    GroupsDiffer(x[0], x[1], x[2], y[0], y[1], y[2]);
    ThreeAlike(x, y);
  }

  lemma ThreeInFront(x: seq<Byte>, y: seq<Byte>)
    requires |x| >= 3 && |y| >= 3
    ensures x == y <==> x[..3] == y[..3] && x[3..] == y[3..]
    ensures x <= y <==> x[..3] == y[..3] && x[3..] <= y[3..]
    ensures |x[3..]| % 3 == |x| % 3
  {
  }

  lemma PaddedTail(bs: seq<Byte>)
    requires bs != []
    ensures |Pack(bs)| >= 4 && (Pack(bs)[3] == Pad <==> |bs| < 3)
  {
  }

  /** Padding closes a text: nothing else encodes to a text that starts with it. */
  lemma ShortPrefix(x: seq<Byte>, y: seq<Byte>)
    requires x != [] && (|x| < 3 || |y| < 3)
    ensures Pack(x) <= Pack(y) <==> x == y || (|x| % 3 == 0 && x <= y)
  {
    PackLength(x);
    PackLength(y);
    if Pack(x) <= Pack(y) {
      PaddedTail(x);
      PaddedTail(y);
      assert |x| < 3 && |y| < 3 && Pack(x) == Pack(y);
      PackRoundTrip(x);
      PackRoundTrip(y);
    }
  }

  lemma {:induction false} PackPrefix(x: seq<Byte>, y: seq<Byte>)
    ensures Pack(x) <= Pack(y) <==> x == y || (|x| % 3 == 0 && x <= y)
  {
    if x == [] {
      assert Pack(x) == [] && [] <= Pack(y);
      assert [] <= y;
    } else if |x| < 3 || |y| < 3 {
      ShortPrefix(x, y);
    } else {
      PackPrefix(x[3..], y[3..]);
      GroupPrefix(x, y);
      ThreeInFront(x, y);
    }
  }

  lemma RenderPrefix(vs: seq<Symbol>, ws: seq<Symbol>)
    ensures Map(Renderer(), vs) <= Map(Renderer(), ws) <==> vs <= ws
  {
    var s, t := Map(Renderer(), vs), Map(Renderer(), ws);
    ParseText(vs);
    ParseText(ws);
    if s <= t {
      forall i | 0 <= i < |vs| ensures vs[i] == ws[i] {
        ParseRender(vs[i]);
        ParseRender(ws[i]);
        assert s[i] == t[i];
      }
    }
  }

  /** The text of a non-empty string starts the text of another exactly when they are the same, or when the first
      takes a multiple of three bytes and starts the other: only then does no padding close it. */
  lemma TextPrefix(x: string, y: string)
    ensures ToB64(x) <= ToB64(y) <==> x == y || (|Encode(x)| % 3 == 0 && x <= y)
  {
    RenderPrefix(Pack(Encode(x)), Pack(Encode(y)));
    PackPrefix(Encode(x), Encode(y));
    PrefixesAgree(x, y);
    if Encode(x) == Encode(y) {
      EncodedDecodes(x);
      EncodedDecodes(y);
    }
  }
}
