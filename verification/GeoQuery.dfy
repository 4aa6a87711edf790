/** Geographical queries: the georel grammars of src/geocoding/slf/queryparser.py and what the two back-ends make of
    a near query. */
module GeoQuery {
  import opened Sequences
  import opened Strings
  import opened Geometry

  const NEAR: string := "near"
  const COVERED_BY: string := "coveredBy"
  const INTERSECTS: string := "intersects"
  const DISJOINT: string := "disjoint"
  const EQUALS: string := "equals"
  const MIN_KEY: string := "minDistance"
  const MAX_KEY: string := "maxDistance"

  const SEMICOLON: char := ';'
  const DOT: char := '.'

  // ---- Numbers --------------------------------------------------------------------------

  predicate Digits(s: string) {
    forall i :: 0 <= i < |s| ==> '0' <= s[i] <= '9'
  }

  /** `0|([1-9][0-9]*)` */
  predicate Whole(s: string) {
    s != "" && Digits(s) && (s[0] == '0' ==> |s| == 1)
  }

  predicate Fraction(s: string) {
    s != "" && Digits(s)
  }

  /** The language of `(0|([1-9][0-9]*))([.][0-9]+)?` */
  ghost predicate InNumber(s: string) {
    Whole(s) || exists w, f :: Whole(w) && Fraction(f) && s == w + [DOT] + f
  }

  /** Whether a text is a number, by its parts around the dot. */
  predicate Number(s: string) {
    var parts := Split(s, DOT);
    Whole(parts[0]) && (|parts| == 1 || (|parts| == 2 && Fraction(parts[1])))
  }

  lemma NumberIsParsed(s: string)
    ensures InNumber(s) <==> Number(s)
    ensures Number(s) ==> s != "" && SEMICOLON !in s
  {
    JoinSplit(s, DOT);
    if InNumber(s) {
      if Whole(s) {
        SplitWhole(s, DOT);
      } else {
        var w, f :| Whole(w) && Fraction(f) && s == w + [DOT] + f;
        SplitPiece(w, DOT, f);
        SplitWhole(f, DOT);
      }
    }
  }

  function DigitsValue(s: string): real {
    if s == "" then 0.0
    else
      var last := s[|s| - 1];
      10.0 * DigitsValue(s[..|s| - 1]) + if '0' <= last <= '9' then (last - '0') as int as real else 0.0
  }

  function Scale(n: nat): (r: real)
    ensures r > 0.0
  {
    if n == 0 then 1.0 else 10.0 * Scale(n - 1)
  }

  /** `float` of a number. */
  function NumberValue(s: string): real {
    var parts := Split(s, DOT);
    DigitsValue(parts[0]) + if |parts| > 1 then DigitsValue(parts[1]) / Scale(|parts[1]|) else 0.0
  }

  // ---- What numbers say -----------------------------------------------------------------

  function Digit(n: nat): char
    requires n < 10
  {
    '0' + n as char
  }

  /** The decimal text of a number. */
  function Decimal(n: nat): (s: string)
    ensures s != ""
  {
    if n < 10 then [Digit(n)] else Decimal(n / 10) + [Digit(n % 10)]
  }

  lemma DigitSays(n: nat)
    requires n < 10
    ensures '0' <= Digit(n) <= '9' && (Digit(n) - '0') as int == n && (Digit(n) == '0' <==> n == 0)
  {
  }

  lemma ValueSnoc(s: string, c: char)
    requires '0' <= c <= '9'
    ensures DigitsValue(s + [c]) == 10.0 * DigitsValue(s) + (c - '0') as int as real
  {
    assert (s + [c])[..|s|] == s;
  }

  lemma TimesTen(n: nat)
    ensures 10.0 * (n / 10) as real + (n % 10) as real == n as real
  {
    assert n == 10 * (n / 10) + n % 10;
  }

  /** The decimal text of a number has its value. */
  lemma {:induction false} DecimalValue(n: nat)
    ensures DigitsValue(Decimal(n)) == n as real
  {
    DigitSays(n % 10);
    if n < 10 {
      ValueSnoc("", Digit(n));
      assert "" + [Digit(n)] == [Digit(n)];
    } else {
      DecimalValue(n / 10);
      ValueSnoc(Decimal(n / 10), Digit(n % 10));
      TimesTen(n);
    }
  }

  lemma {:induction false} DecimalIsWhole(n: nat)
    ensures Whole(Decimal(n)) && (n > 0 ==> Decimal(n)[0] != '0')
  {
    DigitSays(n % 10);
    if n >= 10 { DecimalIsWhole(n / 10); }
  }

  lemma {:induction false} WholeHasDecimal(s: string) returns (n: nat)
    requires Whole(s)
    ensures s == Decimal(n)
  {
    var init, last := s[..|s| - 1], s[|s| - 1];
    var d := (last - '0') as int;
    assert s == init + [last] && last == Digit(d);
    if init == "" {
      n := d;
    } else {
      var m := WholeHasDecimal(init);
      assert init[0] != '0';
      assert m > 0 by { assert Decimal(0) == ['0']; }
      n := 10 * m + d;
      assert n / 10 == m && n % 10 == d;
    }
  }

  /** The whole parts are the decimal texts of the natural numbers; the fractions are what can follow a one in them. */
  lemma WholeIsDecimal(s: string)
    ensures Whole(s) <==> exists n: nat :: s == Decimal(n)
    ensures Fraction(s) <==> s != "" && exists n: nat :: "1" + s == Decimal(n)
  {
    if Whole(s) { var n := WholeHasDecimal(s); }
    if n: nat :| s == Decimal(n) { DecimalIsWhole(n); }
    if Fraction(s) {
      assert Digits("1" + s);
      var n := WholeHasDecimal("1" + s);
    }
    if n: nat :| s != "" && "1" + s == Decimal(n) {
      DecimalIsWhole(n);
      assert forall i :: 0 <= i < |s| ==> s[i] == ("1" + s)[i + 1];
    }
  }

  /** The dot moved `n` digits to the right. */
  function Shifted(x: real, n: nat): real {
    if n == 0 then x else 10.0 * Shifted(x, n - 1)
  }

  lemma {:induction false} ShiftedSum(x: real, y: real, n: nat)
    ensures Shifted(x + y, n) == Shifted(x, n) + Shifted(y, n)
  {
    if n > 0 { ShiftedSum(x, y, n - 1); }
  }

  lemma {:induction false} ShiftedTen(x: real, n: nat)
    ensures Shifted(10.0 * x, n) == 10.0 * Shifted(x, n)
  {
    if n > 0 { ShiftedTen(x, n - 1); }
  }

  lemma TenthTimesTen(y: real, z: real)
    requires z > 0.0
    ensures 10.0 * (y / (10.0 * z)) == y / z
  {
  }

  lemma {:induction false} ScaledBack(y: real, n: nat)
    ensures Shifted(y / Scale(n), n) == y
  {
    if n > 0 {
      ScaledBack(y, n - 1);
      TenthTimesTen(y, Scale(n - 1));
      ShiftedTen(y / Scale(n), n - 1);
    }
  }

  lemma MovedBack(v: real, x: real, y: real, n: nat)
    requires v == x + y / Scale(n)
    ensures Shifted(v, n) == Shifted(x, n) + y
  {
    ShiftedSum(x, y / Scale(n), n);
    ScaledBack(y, n);
  }

  lemma {:induction false} ValueConcat(a: string, b: string)
    requires Digits(b)
    ensures DigitsValue(a + b) == Shifted(DigitsValue(a), |b|) + DigitsValue(b)
  {
    if b == "" {
      assert a + b == a;
    } else {
      var init, last := b[..|b| - 1], b[|b| - 1];
      assert b == init + [last] && a + b == a + init + [last];
      ValueConcat(a, init);
      ValueSnoc(a + init, last);
      ValueSnoc(init, last);
    }
  }

  lemma NumberParts(w: string, f: string)
    requires Whole(w)
    ensures Split(w, DOT) == [w]
    ensures Fraction(f) ==> Split(w + [DOT] + f, DOT) == [w, f]
  {
    assert DOT !in w;
    SplitWhole(w, DOT);
    if Fraction(f) {
      assert DOT !in f;
      SplitPiece(w, DOT, f);
      SplitWhole(f, DOT);
    }
  }

  /** The value of a number: that of its digits, and with a dot, when that is moved behind them all. */
  lemma NumberSays(w: string, f: string)
    requires Whole(w)
    ensures NumberValue(w) == DigitsValue(w)
    ensures Fraction(f) ==> Shifted(NumberValue(w + [DOT] + f), |f|) == DigitsValue(w + f)
  {
    NumberParts(w, f);
    if Fraction(f) {
      ValueConcat(w, f);
      MovedBack(NumberValue(w + [DOT] + f), DigitsValue(w), DigitsValue(f), |f|);
    }
  }

  // ---- The eight grammars ---------------------------------------------------------------

  datatype Rel = Intersects | Disjoint | Equals | CoveredBy

  datatype Form = Simple(rel: Rel) | NearMinMax | NearMaxMin | NearMin | NearMax

  function NameOf(rel: Rel): string {
    match rel
    case Intersects => INTERSECTS
    case Disjoint => DISJOINT
    case Equals => EQUALS
    case CoveredBy => COVERED_BY
  }

  /** A word, or a distance behind its key and a colon. */
  datatype Item = Word(word: string) | Distance(key: string)

  /** What each regular expression asks for between semicolons. */
  function Items(form: Form): seq<Item> {
    match form
    case Simple(rel) => [Word(NameOf(rel))]
    case NearMinMax => [Word(NEAR), Distance(MIN_KEY), Distance(MAX_KEY)]
    case NearMaxMin => [Word(NEAR), Distance(MAX_KEY), Distance(MIN_KEY)]
    case NearMin => [Word(NEAR), Distance(MIN_KEY)]
    case NearMax => [Word(NEAR), Distance(MAX_KEY)]
  }

  predicate FitsItem(item: Item, piece: string) {
    match item
    case Word(w) => piece == w
    case Distance(key) => key + ":" <= piece && Number(piece[|key| + 1..])
  }

  predicate Fits(items: seq<Item>, pieces: seq<string>) {
    |pieces| == |items| && forall i :: 0 <= i < |items| ==> FitsItem(items[i], pieces[i])
  }

  /** Where a Python `$` lets a match end: at the end, or before one closing line feed. */
  function Stripped(s: string): string {
    if s != "" && s[|s| - 1] == '\n' then s[..|s| - 1] else s
  }

  /** The language of each regular expression. */
  ghost predicate InGrammar(form: Form, s: string) {
    exists pieces :: Fits(Items(form), pieces) && Stripped(s) == Join(pieces, SEMICOLON)
  }

  predicate Accepts(form: Form, s: string) {
    Fits(Items(form), Split(Stripped(s), SEMICOLON))
  }

  predicate NoSemicolon(item: Item) {
    match item
    case Word(w) => SEMICOLON !in w
    case Distance(key) => SEMICOLON !in key
  }

  lemma NamesHaveNone(rel: Rel)
    ensures SEMICOLON !in NameOf(rel)
  {
  }

  lemma KeysHaveNone()
    ensures SEMICOLON !in NEAR && SEMICOLON !in MIN_KEY && SEMICOLON !in MAX_KEY
  {
  }

  lemma ItemsHaveNone(form: Form)
    ensures forall i :: 0 <= i < |Items(form)| ==> NoSemicolon(Items(form)[i])
  {
    if form.Simple? {
      NamesHaveNone(form.rel);
    } else {
      KeysHaveNone();
    }
  }

  lemma PieceHasNoSemicolon(item: Item, piece: string)
    requires FitsItem(item, piece) && NoSemicolon(item)
    ensures SEMICOLON !in piece
  {
    if item.Distance? {
      NumberIsParsed(piece[|item.key| + 1..]);
      assert piece == item.key + ":" + piece[|item.key| + 1..];
    }
  }

  /** Splitting at the semicolons recognises exactly the language. */
  lemma GrammarIsParsed(form: Form, s: string)
    ensures InGrammar(form, s) <==> Accepts(form, s)
  {
    var t := Stripped(s);
    if InGrammar(form, s) {
      var pieces :| Fits(Items(form), pieces) && t == Join(pieces, SEMICOLON);
      ItemsHaveNone(form);
      forall p | p in pieces ensures SEMICOLON !in p {
        var i :| 0 <= i < |pieces| && pieces[i] == p;
        PieceHasNoSemicolon(Items(form)[i], pieces[i]);
      }
      assert |Items(form)| > 0;
      SplitJoin(pieces, SEMICOLON);
    }
    if Accepts(form, s) {
      JoinSplit(t, SEMICOLON);
    }
  }

  lemma WordsDiffer(a: Rel, b: Rel)
    ensures NameOf(a) == NameOf(b) ==> a == b
  {
  }

  lemma KeysDiffer(piece: string)
    ensures !(FitsItem(Distance(MIN_KEY), piece) && FitsItem(Distance(MAX_KEY), piece))
  {
    assert (MIN_KEY + ":")[1] == 'i' && (MAX_KEY + ":")[1] == 'a';
  }

  /** No text is in two of the languages. */
  lemma GrammarsDisjoint(f: Form, g: Form, s: string)
    requires InGrammar(f, s) && InGrammar(g, s)
    ensures f == g
  {
    GrammarIsParsed(f, s);
    GrammarIsParsed(g, s);
    var pieces := Split(Stripped(s), SEMICOLON);
    if f.Simple? && g.Simple? {
      assert FitsItem(Items(f)[0], pieces[0]) && FitsItem(Items(g)[0], pieces[0]);
      WordsDiffer(f.rel, g.rel);
    } else if |pieces| > 1 {
      assert FitsItem(Items(f)[1], pieces[1]) && FitsItem(Items(g)[1], pieces[1]);
      KeysDiffer(pieces[1]);
    }
  }

  // ---- Queries --------------------------------------------------------------------------

  /** A reference shape comes with the points read so far; reading the others may raise later on. */
  datatype Query =
    | ShapeQuery(rel: Rel, shape: Attempt<Geometry>)
    | NearQuery(centroid: Option<Point>, minDistance: Option<real>, maxDistance: Option<real>)

  function GeometryCentroid(g: Geometry): Option<Point> {
    var c := Centroid(Map(ToPosition(), Points(g)));
    if c.None? then None else Some(ToPoint()(c.value))
  }

  function DistanceIn(key: string, piece: string): Option<real> {
    Some(if |key| + 1 <= |piece| then NumberValue(piece[|key| + 1..]) else 0.0)
  }

  /** One parser on one text: None when the pattern does not match, an exception when a near query cannot read the
      points of its geometry. */
  function ParseAs(form: Form, shape: Attempt<Geometry>, s: string): Attempt<Option<Query>> {
    if !Accepts(form, s) then Returned(None)
    else if form.Simple? then Returned(Some(ShapeQuery(form.rel, shape)))
    else if shape.Raised? then Raised
    else
      var pieces, c := Split(Stripped(s), SEMICOLON), GeometryCentroid(shape.value);
      match form
      case NearMinMax => Returned(Some(NearQuery(c, DistanceIn(MIN_KEY, pieces[1]), DistanceIn(MAX_KEY, pieces[2]))))
      case NearMaxMin => Returned(Some(NearQuery(c, DistanceIn(MIN_KEY, pieces[2]), DistanceIn(MAX_KEY, pieces[1]))))
      case NearMin => Returned(Some(NearQuery(c, DistanceIn(MIN_KEY, pieces[1]), None)))
      case NearMax => Returned(Some(NearQuery(c, None, DistanceIn(MAX_KEY, pieces[1]))))
  }

  function Parser(shape: Attempt<Geometry>, s: string): Form -> Attempt<Option<Query>> {
    (form: Form) => ParseAs(form, shape, s)
  }

  /** The parsers one after the other; the first result stands, and none at all is the value error. */
  function FirstParse(parse: Form -> Attempt<Option<Query>>, forms: seq<Form>): Attempt<Query> {
    if forms == [] then Raised
    else
      match parse(forms[0])
      case Raised => Raised
      case Returned(Some(q)) => Returned(q)
      case Returned(None) => FirstParse(parse, forms[1..])
  }

  const PARSERS: seq<Form> := [
    Simple(Intersects), Simple(Disjoint), Simple(Equals), Simple(CoveredBy), NearMinMax, NearMaxMin, NearMin, NearMax]

  function PlaceOf(form: Form): nat {
    match form
    case Simple(Intersects) => 0
    case Simple(Disjoint) => 1
    case Simple(Equals) => 2
    case Simple(CoveredBy) => 3
    case NearMinMax => 4
    case NearMaxMin => 5
    case NearMin => 6
    case NearMax => 7
  }

  lemma AllTried(form: Form)
    ensures form in PARSERS
  {
    assert PlaceOf(form) < |PARSERS| && PARSERS[PlaceOf(form)] == form;
  }

  function Found(r: Attempt<Option<Query>>): Attempt<Query> {
    match r
    case Returned(Some(q)) => Returned(q)
    case _ => Raised
  }

  lemma {:induction false} OnlyOneAccepts(parse: Form -> Attempt<Option<Query>>, forms: seq<Form>, f: Form)
    requires forall g :: g in forms && g != f ==> parse(g) == Returned(None)
    ensures FirstParse(parse, forms) == if f in forms then Found(parse(f)) else Raised
  {
    if forms != [] {
      OnlyOneAccepts(parse, forms[1..], f);
      assert forms == [forms[0]] + forms[1..];
    }
  }

  lemma {:induction false} NoneAccepts(parse: Form -> Attempt<Option<Query>>, forms: seq<Form>)
    requires forall g :: g in forms ==> parse(g) == Returned(None)
    ensures FirstParse(parse, forms) == Raised
  {
    if forms != [] { NoneAccepts(parse, forms[1..]); }
  }

  lemma ParsesItsGrammar(form: Form, shape: Attempt<Geometry>, s: string)
    ensures Parser(shape, s)(form) == Returned(None) <==> !InGrammar(form, s)
  {
    GrammarIsParsed(form, s);
  }

  /** Whatever order the parsers come in, the result is that of the one that accepts, or the value error. */
  lemma OneParserDecides(forms: seq<Form>, shape: Attempt<Geometry>, s: string)
    requires forall f :: f in PARSERS ==> f in forms
    ensures forall f :: InGrammar(f, s) ==> FirstParse(Parser(shape, s), forms) == Found(Parser(shape, s)(f))
    ensures (forall f :: !InGrammar(f, s)) ==> FirstParse(Parser(shape, s), forms) == Raised
  {
    forall g ensures Parser(shape, s)(g) == Returned(None) <==> !InGrammar(g, s) {
      ParsesItsGrammar(g, shape, s);
    }
    forall f | InGrammar(f, s) ensures FirstParse(Parser(shape, s), forms) == Found(Parser(shape, s)(f)) {
      AllTried(f);
      forall g | g in forms && g != f ensures Parser(shape, s)(g) == Returned(None) {
        if InGrammar(g, s) { GrammarsDisjoint(f, g, s); }
      }
      OnlyOneAccepts(Parser(shape, s), forms, f);
    }
    if forall f :: !InGrammar(f, s) {
      NoneAccepts(Parser(shape, s), forms);
    }
  }

  /** The order of the parsers does not matter. */
  lemma OrderIsIrrelevant(forms: seq<Form>, shape: Attempt<Geometry>, s: string)
    requires forall f :: f in PARSERS ==> f in forms
    ensures FirstParse(Parser(shape, s), forms) == FirstParse(Parser(shape, s), PARSERS)
  {
    OneParserDecides(forms, shape, s);
    OneParserDecides(PARSERS, shape, s);
    if f :| InGrammar(f, s) {
      assert FirstParse(Parser(shape, s), forms) == Found(Parser(shape, s)(f));
    }
  }

  lemma SplitCons(s: string, sep: char)
    requires s != ""
    ensures var rest := Split(s[1..], sep);
      Split(s, sep) == if s[0] == sep then [""] + rest else [[s[0]] + rest[0]] + rest[1..]
  {
  }

  lemma {:induction false} SplitLast(s: string, sep: char)
    requires s != "" && s[|s| - 1] != sep
    ensures var last := Split(s, sep)[|Split(s, sep)| - 1]; last != "" && last[|last| - 1] == s[|s| - 1]
  {
    var rest := Split(s[1..], sep);
    SplitCons(s, sep);
    if |s| > 1 {
      SplitLast(s[1..], sep);
      if s[0] != sep && |rest| == 1 {
        assert Split(s, sep) == [[s[0]] + rest[0]];
      }
    } else {
      assert rest == [""] && Split(s, sep) == [[s[0]] + ""];
    }
  }

  /** No piece a form asks for ends in a line feed. */
  lemma EndsPlainly(item: Item, piece: string, form: Form, i: nat)
    requires FitsItem(item, piece) && i < |Items(form)| && item == Items(form)[i] && piece != ""
    ensures piece[|piece| - 1] != '\n'
  {
    match item
    case Word(w) =>
    case Distance(key) =>
      var d := piece[|key| + 1..];
      NumberIsParsed(d);
      LastOfNumber(d);
  }

  lemma StrippedOnce(s: string)
    requires s == "" || s[|s| - 1] != '\n'
    ensures Stripped(s) == s == Stripped(s + "\n") && Stripped(s + "\n\n") == s + "\n"
  {
    assert (s + "\n")[..|s|] == s && (s + "\n\n")[..|s| + 1] == s + "\n";
  }

  lemma NoLineFeedInside(form: Form, s: string)
    ensures !Fits(Items(form), Split(s + "\n", SEMICOLON))
  {
    var t := s + "\n";
    var pieces := Split(t, SEMICOLON);
    SplitLast(t, SEMICOLON);
    var last := |pieces| - 1;
    assert pieces[last] != "" && pieces[last][|pieces[last]| - 1] == t[|t| - 1] == '\n';
    if Fits(Items(form), pieces) { EndsPlainly(Items(form)[last], pieces[last], form, last); }
  }

  /** One closing line feed changes nothing, two fit no form. */
  lemma OneLineFeed(shape: Attempt<Geometry>, s: string, form: Form)
    requires s == "" || s[|s| - 1] != '\n'
    ensures Parser(shape, s + "\n")(form) == Parser(shape, s)(form)
    ensures !InGrammar(form, s + "\n\n")
  {
    StrippedOnce(s);
    GrammarIsParsed(form, s + "\n\n");
    NoLineFeedInside(form, s);
  }

  function KeyedPiece(key: string, d: string): string {
    key + ":" + d
  }

  function NearText(p: string, q: string): string {
    Join([NEAR, p, q], SEMICOLON)
  }

  lemma PieceOf(key: string, d: string)
    requires InNumber(d)
    ensures FitsItem(Distance(key), KeyedPiece(key, d)) && DistanceIn(key, KeyedPiece(key, d)) == Some(NumberValue(d))
  {
    NumberIsParsed(d);
    assert KeyedPiece(key, d)[|key| + 1..] == d;
  }

  lemma NearPieces(form: Form, p: string, q: string)
    requires form == NearMinMax || form == NearMaxMin
    requires Fits(Items(form), [NEAR, p, q])
    requires NearText(p, q) == Stripped(NearText(p, q))
    ensures Accepts(form, NearText(p, q)) && Split(Stripped(NearText(p, q)), SEMICOLON) == [NEAR, p, q]
  {
    ItemsHaveNone(form);
    PieceHasNoSemicolon(Items(form)[0], NEAR);
    PieceHasNoSemicolon(Items(form)[1], p);
    PieceHasNoSemicolon(Items(form)[2], q);
    SplitJoin([NEAR, p, q], SEMICOLON);
  }

  lemma EndsInDigit(p: string, key: string, d: string)
    requires InNumber(d)
    ensures Stripped(NearText(p, KeyedPiece(key, d))) == NearText(p, KeyedPiece(key, d))
  {
    NumberIsParsed(d);
    LastOfNumber(d);
    var t := NearText(p, KeyedPiece(key, d));
    var pieces := [NEAR, p, KeyedPiece(key, d)];
    assert pieces[1..] == [p, KeyedPiece(key, d)] && pieces[1..][1..] == [KeyedPiece(key, d)];
    assert Join(pieces[1..], SEMICOLON) == p + [SEMICOLON] + KeyedPiece(key, d);
    assert Join(pieces, SEMICOLON)
        == NEAR + [SEMICOLON] + (p + [SEMICOLON] + KeyedPiece(key, d));
    assert t[|t| - 1] == d[|d| - 1];
  }

  lemma LastOfNumber(d: string)
    requires InNumber(d)
    ensures d != "" && '0' <= d[|d| - 1] <= '9'
  {
  }

  /** Both orders of the two distances denote the same query, with the distances written. */
  lemma NearFormsAgree(g: Geometry, d: string, e: string)
    requires InNumber(d) && InNumber(e)
    ensures var near := Returned(NearQuery(GeometryCentroid(g), Some(NumberValue(d)), Some(NumberValue(e))));
      && FirstParse(Parser(Returned(g), NearText(KeyedPiece(MIN_KEY, d), KeyedPiece(MAX_KEY, e))), PARSERS) == near
      && FirstParse(Parser(Returned(g), NearText(KeyedPiece(MAX_KEY, e), KeyedPiece(MIN_KEY, d))), PARSERS) == near
  {
    var p, q := KeyedPiece(MIN_KEY, d), KeyedPiece(MAX_KEY, e);
    PieceOf(MIN_KEY, d);
    PieceOf(MAX_KEY, e);
    EndsInDigit(p, MAX_KEY, e);
    EndsInDigit(q, MIN_KEY, d);
    NearPieces(NearMinMax, p, q);
    NearPieces(NearMaxMin, q, p);
    GrammarIsParsed(NearMinMax, NearText(p, q));
    GrammarIsParsed(NearMaxMin, NearText(q, p));
    OneParserDecides(PARSERS, Returned(g), NearText(p, q));
    OneParserDecides(PARSERS, Returned(g), NearText(q, p));
  }

  /** The distance behind the key in the one piece that has it; none without such a piece. */
  ghost predicate Written(key: string, pieces: seq<string>, distance: Option<real>) {
    && (distance.Some? <==> exists i :: 0 <= i < |pieces| && FitsItem(Distance(key), pieces[i]))
    && forall i :: 0 <= i < |pieces| && FitsItem(Distance(key), pieces[i]) ==>
         distance == Some(NumberValue(pieces[i][|key| + 1..]))
  }

  lemma WrittenOnce(key: string, pieces: seq<string>, k: nat)
    requires k < |pieces| && FitsItem(Distance(key), pieces[k])
    requires forall i :: 0 <= i < |pieces| && i != k ==> !FitsItem(Distance(key), pieces[i])
    ensures Written(key, pieces, DistanceIn(key, pieces[k]))
  {
  }

  lemma NearIsNoDistance()
    ensures !FitsItem(Distance(MIN_KEY), NEAR) && !FitsItem(Distance(MAX_KEY), NEAR)
  {
  }

  /** Where a form has its distances. */
  lemma DistancePlaces(form: Form, pieces: seq<string>)
    requires Fits(Items(form), pieces) && !form.Simple?
    ensures pieces[0] == NEAR
    ensures forall i :: 0 <= i < |pieces| ==>
      && (FitsItem(Distance(MIN_KEY), pieces[i]) <==> i > 0 && Items(form)[i] == Distance(MIN_KEY))
      && (FitsItem(Distance(MAX_KEY), pieces[i]) <==> i > 0 && Items(form)[i] == Distance(MAX_KEY))
  {
    assert FitsItem(Items(form)[0], pieces[0]);
    NearIsNoDistance();
    forall i | 0 < i < |pieces|
      ensures FitsItem(Distance(MIN_KEY), pieces[i]) <==> Items(form)[i] == Distance(MIN_KEY)
      ensures FitsItem(Distance(MAX_KEY), pieces[i]) <==> Items(form)[i] == Distance(MAX_KEY)
    {
      assert FitsItem(Items(form)[i], pieces[i]);
      KeysDiffer(pieces[i]);
    }
  }

  /** A near query has the centroid of its geometry and just the distances written behind their keys; a query of a
      single word has its relation and the geometry. */
  ghost predicate SaysWhatIsWritten(q: Query, shape: Attempt<Geometry>, s: string) {
    var pieces := Split(Stripped(s), SEMICOLON);
    match q
    case ShapeQuery(rel, g) => pieces == [NameOf(rel)] && g == shape
    case NearQuery(c, min, max) =>
      && shape.Returned? && c == GeometryCentroid(shape.value)
      && pieces[0] == NEAR && Written(MIN_KEY, pieces, min) && Written(MAX_KEY, pieces, max)
  }

  lemma NearSaysWhatIsWritten(form: Form, pieces: seq<string>)
    requires Fits(Items(form), pieces) && !form.Simple?
    ensures match form
      case NearMinMax => Written(MIN_KEY, pieces, DistanceIn(MIN_KEY, pieces[1]))
                         && Written(MAX_KEY, pieces, DistanceIn(MAX_KEY, pieces[2]))
      case NearMaxMin => Written(MIN_KEY, pieces, DistanceIn(MIN_KEY, pieces[2]))
                         && Written(MAX_KEY, pieces, DistanceIn(MAX_KEY, pieces[1]))
      case NearMin => Written(MIN_KEY, pieces, DistanceIn(MIN_KEY, pieces[1])) && Written(MAX_KEY, pieces, None)
      case NearMax => Written(MIN_KEY, pieces, None) && Written(MAX_KEY, pieces, DistanceIn(MAX_KEY, pieces[1]))
      case _ => true
  {
    DistancePlaces(form, pieces);
    match form {
      case NearMinMax => WrittenOnce(MIN_KEY, pieces, 1); WrittenOnce(MAX_KEY, pieces, 2);
      case NearMaxMin => WrittenOnce(MIN_KEY, pieces, 2); WrittenOnce(MAX_KEY, pieces, 1);
      case NearMin => WrittenOnce(MIN_KEY, pieces, 1);
      case NearMax => WrittenOnce(MAX_KEY, pieces, 1);
      case _ =>
    }
  }

  lemma QuerySaysWhatIsWritten(form: Form, shape: Attempt<Geometry>, s: string, q: Query)
    requires ParseAs(form, shape, s) == Returned(Some(q))
    ensures SaysWhatIsWritten(q, shape, s)
  {
    var pieces := Split(Stripped(s), SEMICOLON);
    if !form.Simple? {
      DistancePlaces(form, pieces);
      NearSaysWhatIsWritten(form, pieces);
    }
  }

  // ---- from_geo_params ------------------------------------------------------------------

  function KindNamed(name: string): Option<Kind> {
    if name == "point" then Some(PointKind)
    else if name == "line" then Some(LineKind)
    else if name == "polygon" then Some(PolygonKind)
    else if name == "box" then Some(BoxKind)
    else None
  }

  /** The geometry built from the texts of a coordinate list; None is the constructor's value error. A point takes the
      first text and never looks at others. */
  function Build(kind: Kind, texts: seq<Option<Point>>): (r: Option<Attempt<Geometry>>)
    ensures r.Some? && r.value.Returned? ==> Valid(r.value.value)
  {
    if kind == PointKind then
      if texts == [] || texts[0].None? then None else Some(Returned(SlfPoint(texts[0].value)))
    else
      match FromTexts(kind, texts)
      case Raised => Some(Raised)
      case Returned(None) => None
      case Returned(Some(g)) => Some(Returned(g))
  }

  predicate Given(x: Option<string>) {
    x.Some? && x.value != ""
  }

  /** `from_geo_params`; `coordsOf` reads a coordinate list, None where its pattern does not match. */
  function FromGeoParams(georel: Option<string>, geometry: Option<string>, coords: Option<string>,
                         coordsOf: string -> Option<seq<Option<Point>>>): Attempt<Option<Query>>
  {
    if georel.None? && geometry.None? && coords.None? then Returned(None)
    else if !Given(georel) || !Given(geometry) || !Given(coords) then Raised
    else
      var texts, kind := coordsOf(coords.value), KindNamed(geometry.value);
      if texts.None? || kind.None? then Raised
      else
        var shape := Build(kind.value, texts.value);
        if shape.None? then Raised
        else
          match FirstParse(Parser(shape.value, georel.value), PARSERS)
          case Raised => Raised
          case Returned(q) => Returned(Some(q))
  }

  /** How a query names its kind of geometry. */
  function KindName(kind: Kind): string {
    match kind
    case PointKind => "point"
    case LineKind => "line"
    case PolygonKind => "polygon"
    case BoxKind => "box"
  }

  lemma KindsAreNamed(kind: Kind, name: string)
    ensures KindNamed(name) == Some(kind) <==> name == KindName(kind)
  {
    assert KindName(PointKind)[1] == 'o' && KindName(LineKind)[1] == 'i' && KindName(PolygonKind)[1] == 'o';
    assert KindName(BoxKind)[1] == 'o' && |KindName(PolygonKind)| == 7 && |KindName(BoxKind)| == 3;
    assert |KindName(PointKind)| == 5;
  }

  /** All texts are points, where all are read in the end. */
  ghost predicate ReadableBehind(kind: Kind, texts: seq<Option<Point>>) {
    kind == LineKind || kind == PolygonKind ==> StartsReadable(texts, |texts|)
  }

  /** There is a geometry exactly when the texts read at once are points, its points are those of the texts, and reading
      them all raises exactly when a line or polygon has a text further on that is none. */
  lemma BuildReads(kind: Kind, texts: seq<Option<Point>>)
    ensures var r := Build(kind, texts);
      && (r.Some? <==> StartsReadable(texts, ReadAtOnce(kind)))
      && (r.Some? ==> (r.value.Returned? <==> ReadableBehind(kind, texts)))
      && (r.Some? && r.value.Returned? ==>
           KindOf(r.value.value) == kind && forall i :: 0 <= i < |Points(r.value.value)| ==>
             i < |texts| && texts[i] == Some(Points(r.value.value)[i]))
  {
    TextsAreKept(kind, texts);
    ParsedReaches(texts, |texts|);
    ParsedAre(texts);
  }

  /** The parameters are all there, the kind of geometry is this one, and the coordinates are a list of texts. */
  ghost predicate Usable(georel: Option<string>, geometry: Option<string>, coords: Option<string>,
                         coordsOf: string -> Option<seq<Option<Point>>>, kind: Kind) {
    && georel.Some? && georel.value != "" && geometry == Some(KindName(kind)) && coords.Some? && coords.value != ""
    && coordsOf(coords.value).Some?
  }

  /** The texts read at once are points, the relation is in this language, and for a near query no text further on is
      none. */
  ghost predicate MakesQuery(kind: Kind, texts: seq<Option<Point>>, s: string, form: Form) {
    && StartsReadable(texts, ReadAtOnce(kind)) && InGrammar(form, s)
    && (form.Simple? || ReadableBehind(kind, texts))
  }

  lemma ParsesWhen(form: Form, shape: Attempt<Geometry>, s: string)
    requires InGrammar(form, s)
    ensures Found(ParseAs(form, shape, s)).Returned? <==> form.Simple? || shape.Returned?
  {
    GrammarIsParsed(form, s);
  }

  /** The relation gives a query exactly when it is in one of the languages and a near query can read its geometry. */
  lemma ShapeGives(shape: Attempt<Geometry>, s: string)
    ensures var r := FirstParse(Parser(shape, s), PARSERS);
      && (r.Returned? <==> exists form :: InGrammar(form, s) && (form.Simple? || shape.Returned?))
      && (r.Returned? ==> SaysWhatIsWritten(r.value, shape, s))
  {
    OneParserDecides(PARSERS, shape, s);
    var r := FirstParse(Parser(shape, s), PARSERS);
    forall form | InGrammar(form, s) ensures r.Returned? <==> form.Simple? || shape.Returned? {
      ParsesWhen(form, shape, s);
    }
    if r.Returned? {
      var f := FirstAccepts(Parser(shape, s), PARSERS, r.value);
      QuerySaysWhatIsWritten(f, shape, s, r.value);
    }
  }

  lemma UsableGive(georel: Option<string>, geometry: Option<string>, coords: Option<string>,
                   coordsOf: string -> Option<seq<Option<Point>>>, kind: Kind)
    requires Usable(georel, geometry, coords, coordsOf, kind)
    ensures var r, texts := FromGeoParams(georel, geometry, coords, coordsOf), coordsOf(coords.value).value;
      && (r.Returned? <==> exists form :: MakesQuery(kind, texts, georel.value, form))
      && (r.Returned? ==> r.value.Some? && Build(kind, texts).Some?
                          && SaysWhatIsWritten(r.value.value, Build(kind, texts).value, georel.value))
  {
    var texts := coordsOf(coords.value).value;
    KindsAreNamed(kind, KindName(kind));
    assert KindName(kind) != "";
    BuildReads(kind, texts);
    if Build(kind, texts).Some? {
      var shape := Build(kind, texts).value;
      ShapeGives(shape, georel.value);
      forall form
        ensures MakesQuery(kind, texts, georel.value, form) <==>
          InGrammar(form, georel.value) && (form.Simple? || shape.Returned?)
      {
      }
    } else {
      assert forall form :: !MakesQuery(kind, texts, georel.value, form);
    }
  }

  lemma UselessRaise(georel: Option<string>, geometry: Option<string>, coords: Option<string>,
                     coordsOf: string -> Option<seq<Option<Point>>>)
    requires forall kind :: !Usable(georel, geometry, coords, coordsOf, kind)
    ensures FromGeoParams(georel, geometry, coords, coordsOf)
         == if georel.None? && geometry.None? && coords.None? then Returned(None) else Raised
  {
    if Given(georel) && Given(geometry) && Given(coords) && KindNamed(geometry.value).Some? {
      KindsAreNamed(KindNamed(geometry.value).value, geometry.value);
      assert !Usable(georel, geometry, coords, coordsOf, KindNamed(geometry.value).value);
    }
  }

  /** Without parameters there is no query and no error; else a query exactly when the parameters make one, and it says
      what is written; everything else is the value error. */
  lemma GeoParamsGive(georel: Option<string>, geometry: Option<string>, coords: Option<string>,
                      coordsOf: string -> Option<seq<Option<Point>>>)
    ensures var r := FromGeoParams(georel, geometry, coords, coordsOf);
      && (r == Returned(None) <==> georel.None? && geometry.None? && coords.None?)
      && (r.Returned? && r.value.Some? <==>
           exists kind, form ::
             Usable(georel, geometry, coords, coordsOf, kind)
             && MakesQuery(kind, coordsOf(coords.value).value, georel.value, form))
      && (r.Returned? && r.value.Some? ==>
           exists kind ::
             && Usable(georel, geometry, coords, coordsOf, kind) && Build(kind, coordsOf(coords.value).value).Some?
             && SaysWhatIsWritten(r.value.value, Build(kind, coordsOf(coords.value).value).value, georel.value))
  {
    if kind :| Usable(georel, geometry, coords, coordsOf, kind) {
      UsableGive(georel, geometry, coords, coordsOf, kind);
      forall other | Usable(georel, geometry, coords, coordsOf, other) ensures other == kind {
        KindsAreNamed(kind, geometry.value);
        KindsAreNamed(other, geometry.value);
      }
    } else {
      UselessRaise(georel, geometry, coords, coordsOf);
    }
  }

  /** A near query that was parsed has a centroid and at least one distance. */
  lemma ParsedNearIsComplete(georel: Option<string>, geometry: Option<string>, coords: Option<string>,
                             coordsOf: string -> Option<seq<Option<Point>>>, q: Query)
    requires FromGeoParams(georel, geometry, coords, coordsOf) == Returned(Some(q)) && q.NearQuery?
    ensures q.centroid.Some? && (q.minDistance.Some? || q.maxDistance.Some?)
  {
    var shape := Build(KindNamed(geometry.value).value, coordsOf(coords.value).value).value;
    NearIsComplete(shape, georel.value, q);
  }

  lemma NearParsed(f: Form, shape: Attempt<Geometry>, s: string, q: Query)
    requires ParseAs(f, shape, s) == Returned(Some(q)) && q.NearQuery?
    requires shape.Returned? ==> Valid(shape.value)
    ensures q.centroid.Some? && (q.minDistance.Some? || q.maxDistance.Some?)
  {
  }

  lemma NearIsComplete(shape: Attempt<Geometry>, s: string, q: Query)
    requires FirstParse(Parser(shape, s), PARSERS) == Returned(q) && q.NearQuery?
    requires shape.Returned? ==> Valid(shape.value)
    ensures q.centroid.Some? && (q.minDistance.Some? || q.maxDistance.Some?)
  {
    var parse := Parser(shape, s);
    var f := FirstAccepts(parse, PARSERS, q);
    assert parse(f) == ParseAs(f, shape, s);
    NearParsed(f, shape, s, q);
  }

  lemma {:induction false} FirstAccepts(parse: Form -> Attempt<Option<Query>>, forms: seq<Form>, q: Query)
    returns (f: Form)
    requires FirstParse(parse, forms) == Returned(q)
    ensures parse(f) == Returned(Some(q))
  {
    f := forms[0];
    if parse(f) == Returned(None) { f := FirstAccepts(parse, forms[1..], q); }
  }

  // ---- The back-ends --------------------------------------------------------------------

  /** Conditions on the distance of a location's centroid from the query's, in metres and in degrees. */
  datatype Term = AtLeast(m: real) | AtMost(m: real) | WithinDegrees(dd: real) | Not(t: Term) | And(t: Term, u: Term)

  predicate Holds(t: Term, metres: real, degrees: real) {
    match t
    case AtLeast(m) => metres >= m
    case AtMost(m) => metres <= m
    case WithinDegrees(dd) => degrees <= dd
    case Not(u) => !Holds(u, metres, degrees)
    case And(u, v) => Holds(u, metres, degrees) && Holds(v, metres, degrees)
  }

  const DEGREES_PER_METRE: real := 0.000009

  function Present(ts: seq<Option<Term>>): seq<Term> {
    if ts == [] then [] else (if ts[0].Some? then [ts[0].value] else []) + Present(ts[1..])
  }

  /** `reduce(lambda t, q: t & q, qs)`; None is its error on an empty list. */
  function Reduce(ts: seq<Term>): Option<Term> {
    if ts == [] then None
    else if |ts| == 1 then Some(ts[0])
    else
      var init := Reduce(ts[..|ts| - 1]);
      if init.None? then None else Some(And(init.value, ts[|ts| - 1]))
  }

  function CrateTerm(q: Query): Option<Term>
    requires q.NearQuery?
  {
    Reduce(Present([
      if q.minDistance.Some? then Some(AtLeast(q.minDistance.value)) else None,
      if q.maxDistance.Some? then Some(AtMost(q.maxDistance.value)) else None]))
  }

  function TimescaleTerm(q: Query): Option<Term>
    requires q.NearQuery?
  {
    Reduce(Present([
      if q.minDistance.Some? then Some(Not(WithinDegrees(DEGREES_PER_METRE * q.minDistance.value))) else None,
      if q.maxDistance.Some? then Some(WithinDegrees(DEGREES_PER_METRE * q.maxDistance.value)) else None]))
  }

  lemma ReduceTwo(t: Option<Term>, u: Option<Term>)
    ensures Reduce(Present([t, u])) ==
      if t.Some? && u.Some? then Some(And(t.value, u.value)) else if t.Some? then t else u
  {
    assert [u][0] == u && [u][1..] == [] && Present([u][1..]) == [];
    assert Present([u]) == if u.Some? then [u.value] else [];
    assert [t, u][0] == t && [t, u][1..] == [u];
    if t.Some? && u.Some? {
      var both := [t.value] + [u.value];
      assert Present([t, u]) == both && both[..1] == [t.value] && both[1] == u.value;
      assert Reduce(both[..1]) == Some(t.value);
    }
  }

  /** Neither back-end's reduce meets an empty list exactly when there is a distance. */
  lemma TermsAreThere(q: Query)
    requires q.NearQuery?
    ensures CrateTerm(q).Some? <==> q.minDistance.Some? || q.maxDistance.Some?
    ensures TimescaleTerm(q).Some? <==> q.minDistance.Some? || q.maxDistance.Some?
  {
    var min, max := q.minDistance, q.maxDistance;
    ReduceTwo(if min.Some? then Some(AtLeast(min.value)) else None,
              if max.Some? then Some(AtMost(max.value)) else None);
    ReduceTwo(if min.Some? then Some(Not(WithinDegrees(DEGREES_PER_METRE * min.value))) else None,
              if max.Some? then Some(WithinDegrees(DEGREES_PER_METRE * max.value)) else None);
  }

  lemma CrateHolds(q: Query, metres: real, degrees: real)
    requires q.NearQuery? && CrateTerm(q).Some?
    ensures Holds(CrateTerm(q).value, metres, degrees) <==>
      && (q.minDistance.Some? ==> metres >= q.minDistance.value)
      && (q.maxDistance.Some? ==> metres <= q.maxDistance.value)
  {
    var min, max := q.minDistance, q.maxDistance;
    ReduceTwo(if min.Some? then Some(AtLeast(min.value)) else None,
              if max.Some? then Some(AtMost(max.value)) else None);
  }

  lemma TimescaleHolds(q: Query, metres: real, degrees: real)
    requires q.NearQuery? && TimescaleTerm(q).Some?
    ensures Holds(TimescaleTerm(q).value, metres, degrees) <==>
      && (q.minDistance.Some? ==> !(degrees <= DEGREES_PER_METRE * q.minDistance.value))
      && (q.maxDistance.Some? ==> degrees <= DEGREES_PER_METRE * q.maxDistance.value)
  {
    var min, max := q.minDistance, q.maxDistance;
    var least := if min.Some? then Some(Not(WithinDegrees(DEGREES_PER_METRE * min.value))) else None;
    var most := if max.Some? then Some(WithinDegrees(DEGREES_PER_METRE * max.value)) else None;
    ReduceTwo(least, most);
    if min.Some? {
      assert Holds(least.value, metres, degrees) <==> !(degrees <= DEGREES_PER_METRE * min.value);
    }
  }

  lemma ScaleKeepsOrder(a: real, b: real)
    ensures DEGREES_PER_METRE * a <= DEGREES_PER_METRE * b <==> a <= b
  {
  }

  /** Where degrees are metres scaled, the back-ends select the same locations but those exactly at the least
      distance: Crate takes them and Timescale does not, unless they are too far anyway. */
  lemma BackEndsAgree(q: Query, metres: real)
    requires q.NearQuery? && (q.minDistance.Some? || q.maxDistance.Some?)
    ensures CrateTerm(q).Some? && TimescaleTerm(q).Some?
    ensures var degrees := DEGREES_PER_METRE * metres;
      (Holds(CrateTerm(q).value, metres, degrees) <==> Holds(TimescaleTerm(q).value, metres, degrees))
      <==> !(q.minDistance == Some(metres) && (q.maxDistance.None? || metres <= q.maxDistance.value))
  {
    var degrees := DEGREES_PER_METRE * metres;
    TermsAreThere(q);
    CrateHolds(q, metres, degrees);
    TimescaleHolds(q, metres, degrees);
    if q.minDistance.Some? { ScaleKeepsOrder(metres, q.minDistance.value); }
    if q.maxDistance.Some? { ScaleKeepsOrder(metres, q.maxDistance.value); }
  }
}
