/** Composite task ids and the Redis patterns that look tasks up by the first tags of their id:
    src/wq/core/task.py, src/wq/core/rqutils.py and src/wq/ql/notify.py. */
module TaskIds {
  import opened Sequences
  import opened Strings
  import opened Utf8
  import opened Base64

  const KEY_PREFIX: string := "rq:job:"

  const CLOSING: string := "*"

  /** The id of a task: its tags, then an identifier of its own. */
  function IdSeq(tags: seq<string>, unique: string): seq<string> {
    tags + [unique]
  }

  function IdRepr(ids: seq<string>): string {
    ToB64List(ids)
  }

  /** How many elements an initial segment of `size` takes: at least one, at most all. */
  function Taken(ids: seq<string>, size: int): nat {
    var m := if size < 1 then 1 else size;
    if m < |ids| then m else |ids|
  }

  function InitialSegment(ids: seq<string>, size: int): string {
    ToB64List(ids[..Taken(ids, size)])
  }

  function JobKey(id: string): string {
    KEY_PREFIX + id
  }

  function JobId(key: string): string {
    if KEY_PREFIX <= key then key[|KEY_PREFIX|..] else ""
  }

  function StartsWithMatcher(prefix: string): string {
    prefix + CLOSING
  }

  // ---- Patterns -------------------------------------------------------------------------

  /** Characters a Redis pattern does not take literally. */
  predicate Wildcard(c: char) {
    c == '*' || c == '?' || c == '[' || c == ']' || c == '^' || c == '-' || c == '\\'
  }

  predicate Plain(p: string) {
    forall c :: c in p ==> !Wildcard(c)
  }

  /** Redis glob matching of patterns without character classes or escapes. */
  predicate Matches(p: string, s: string)
    requires '[' !in p && '\\' !in p
    decreases |p| + |s|
  {
    if p == "" then s == ""
    else if p[0] == '*' then Matches(p[1..], s) || (s != "" && Matches(p, s[1..]))
    else s != "" && (p[0] == '?' || p[0] == s[0]) && Matches(p[1..], s[1..])
  }

  lemma {:induction false} StarMatchesAll(s: string)
    ensures Matches(CLOSING, s)
  {
    if s != "" { StarMatchesAll(s[1..]); }
  }

  /** A plain prefix and a star match exactly the strings with that prefix. */
  lemma {:induction false} StarMatchesPrefix(p: string, s: string)
    requires Plain(p)
    ensures Matches(StartsWithMatcher(p), s) <==> p <= s
  {
    if p == "" {
      assert StartsWithMatcher(p) == CLOSING;
      StarMatchesAll(s);
    } else if s != "" {
      assert p[0] in p;
      StarMatchesPrefix(p[1..], s[1..]);
      assert StartsWithMatcher(p)[1..] == StartsWithMatcher(p[1..]);
      Behind([p[0]], p[1..], s[1..]);
      assert p == [p[0]] + p[1..] && s == [s[0]] + s[1..];
    } else {
      assert p[0] in p && StartsWithMatcher(p)[0] == p[0];
    }
  }

  /** And a key that gives an id is the key of that id. */
  lemma JobKeyRoundTrip(id: string, key: string)
    ensures JobId(JobKey(id)) == id
    ensures JobId(key) != "" ==> JobKey(JobId(key)) == key
  {
  }

  // ---- Prefixes of joined lists ---------------------------------------------------------

  predicate Stops(tail: string, sep: char) {
    tail == "" || tail[0] == sep
  }

  /** A piece without the separator is matched within the first piece. */
  lemma PieceWithin(a: string, b: string, tail: string, sep: char)
    requires sep !in a && Stops(tail, sep)
    ensures a <= b + tail <==> a <= b
  {
    if |a| > |b| && tail != "" {
      assert a[|b|] in a && (b + tail)[|b|] == tail[0];
    }
  }

  lemma SameStop(a: string, behind: string, b: string, tail: string, sep: char)
    requires sep !in a && sep !in b && Stops(tail, sep) && behind != "" && behind[0] == sep
    ensures a + behind <= b + tail ==> |a| == |b|
  {
    var s, t := a + behind, b + tail;
    assert a <= s && s[|a|] == sep;
    PieceWithin(a, b, tail, sep);
    if |a| < |b| {
      assert b[|a|] in b && t[|a|] == b[|a|];
    }
  }

  /** A piece closed by the separator is the whole first piece. */
  lemma PieceClosed(a: string, rest: string, b: string, tail: string, sep: char)
    requires sep !in a && sep !in b && Stops(tail, sep)
    ensures a + [sep] + rest <= b + tail <==> tail != "" && a == b && rest <= tail[1..]
  {
    var behind := [sep] + rest;
    assert a + [sep] + rest == a + behind;
    SameStop(a, behind, b, tail, sep);
    if |a| == |b| {
      SameLengthHeads(a, b, behind, tail);
      if tail != "" {
        assert tail == [sep] + tail[1..];
        Behind([sep], rest, tail[1..]);
      }
    }
  }

  /** The text after the first piece of a joined list. */
  function JoinTail(ys: seq<string>, sep: char): string {
    if |ys| <= 1 then "" else [sep] + Join(ys[1..], sep)
  }

  ghost predicate Pieces(xs: seq<string>, sep: char) {
    forall x :: x in xs ==> sep !in x
  }

  /** One joined list starts another exactly when its pieces but the last are the other's first, and its last
      starts the other's next. */
  lemma {:induction false} JoinPrefix(xs: seq<string>, ys: seq<string>, sep: char)
    requires xs != [] && ys != [] && Pieces(xs, sep) && Pieces(ys, sep)
    ensures var m := |xs|;
      Join(xs, sep) <= Join(ys, sep) <==> m <= |ys| && xs[..m - 1] == ys[..m - 1] && xs[m - 1] <= ys[m - 1]
  {
    var m, tail := |xs|, JoinTail(ys, sep);
    assert Join(ys, sep) == ys[0] + tail;
    assert xs[0] in xs && ys[0] in ys;
    if m == 1 {
      PieceWithin(xs[0], ys[0], tail, sep);
    } else {
      PieceClosed(xs[0], Join(xs[1..], sep), ys[0], tail, sep);
      if |ys| > 1 {
        JoinPrefix(xs[1..], ys[1..], sep);
        assert tail[1..] == Join(ys[1..], sep);
        if m <= |ys| { InFront(xs[..m - 1], ys[..m - 1]); }
        assert m <= |ys| ==> xs[1..][..m - 2] == xs[..m - 1][1..] && ys[1..][..m - 2] == ys[..m - 1][1..];
      }
    }
  }

  lemma InFront<T>(x: seq<T>, y: seq<T>)
    requires x != [] && y != []
    ensures x == y <==> x[0] == y[0] && x[1..] == y[1..]
  {
  }

  // ---- What a pattern finds -------------------------------------------------------------

  /** The text of the tag is not closed by padding, and the other tag goes on from it. */
  predicate RunsOn(tag: string, other: string) {
    tag != "" && |Encode(tag)| % 3 == 0 && tag <= other
  }

  lemma ElementPrefix(x: string, y: string)
    ensures EncodeElement(x) <= EncodeElement(y) <==> x == y || RunsOn(x, y)
  {
    ElementShape(x);
    ElementShape(y);
    assert EMPTY_ELEMENT[0] == '"';
    if x == "" && y != "" {
      assert EncodeElement(y)[0] in EncodeElement(y);
    } else if x != "" && y == "" {
      assert EncodeElement(x)[0] in EncodeElement(x);
    } else if x != "" {
      TextPrefix(x, y);
    }
  }

  lemma EncodedPieces(xs: seq<string>)
    ensures Pieces(Map(Encoder(), xs), SEPARATOR)
  {
  }

  lemma ElementsDiffer(x: string, y: string)
    ensures EncodeElement(x) == EncodeElement(y) <==> x == y
  {
    ElementPrefix(x, y);
    ElementPrefix(y, x);
  }

  lemma AlikeEncoded(xs: seq<string>, ys: seq<string>, m: nat)
    requires m <= |xs| && m <= |ys|
    ensures xs[..m] == ys[..m] ==> Map(Encoder(), xs)[..m] == Map(Encoder(), ys)[..m]
  {
    var es, fs := Map(Encoder(), xs), Map(Encoder(), ys);
    forall i | 0 <= i < m && xs[..m] == ys[..m] ensures es[i] == fs[i] {
      assert xs[i] == xs[..m][i] && ys[i] == ys[..m][i];
    }
  }

  lemma EncodedAlike(xs: seq<string>, ys: seq<string>, m: nat)
    requires m <= |xs| && m <= |ys|
    ensures Map(Encoder(), xs)[..m] == Map(Encoder(), ys)[..m] <==> xs[..m] == ys[..m]
  {
    var es, fs := Map(Encoder(), xs), Map(Encoder(), ys);
    if es[..m] == fs[..m] {
      forall i | 0 <= i < m ensures xs[i] == ys[i] {
        assert es[..m][i] == fs[..m][i];
        ElementsDiffer(xs[i], ys[i]);
      }
    }
    AlikeEncoded(xs, ys, m);
  }

  /** What it takes for an id to be found by the first `m` elements of another. */
  ghost predicate FoundBy(xs: seq<string>, m: nat, ys: seq<string>)
    requires 1 <= m <= |xs|
  {
    m <= |ys| && xs[..m - 1] == ys[..m - 1] && (xs[m - 1] == ys[m - 1] || RunsOn(xs[m - 1], ys[m - 1]))
  }

  lemma SegmentPrefix(xs: seq<string>, m: nat, ys: seq<string>)
    requires 1 <= m <= |xs| && ys != []
    ensures ToB64List(xs[..m]) <= IdRepr(ys) <==> FoundBy(xs, m, ys)
  {
    var es, fs := Map(Encoder(), xs[..m]), Map(Encoder(), ys);
    EncodedPieces(xs[..m]);
    EncodedPieces(ys);
    JoinPrefix(es, fs, SEPARATOR);
    if m <= |ys| {
      EncodedAlike(xs[..m], ys, m - 1);
      assert xs[..m][..m - 1] == xs[..m - 1];
      ElementPrefix(xs[m - 1], ys[m - 1]);
    }
  }

  lemma AlphabetPlain(c: char)
    ensures InAlphabet(c) || c == '"' ==> !Wildcard(c)
  {
  }

  lemma ElementPlain(x: string)
    ensures Plain(EncodeElement(x))
  {
    ElementShape(x);
    forall c | c in EncodeElement(x) ensures !Wildcard(c) {
      AlphabetPlain(c);
    }
  }

  /** No Redis wildcard is in any representation. */
  lemma NoWildcards(xs: seq<string>)
    ensures Plain(IdRepr(xs))
  {
    var es := Map(Encoder(), xs);
    forall e | e in es ensures Plain(e) {
      var i :| 0 <= i < |xs| && es[i] == e;
      ElementPlain(xs[i]);
    }
    JoinPlain(es, SEPARATOR);
  }

  lemma {:induction false} JoinPlain(es: seq<string>, sep: char)
    requires (forall e :: e in es ==> Plain(e)) && !Wildcard(sep)
    ensures Plain(Join(es, sep))
  {
    if |es| > 1 {
      JoinPlain(es[1..], sep);
      assert Plain(es[0]);
    }
  }

  /** Looking ids up by the first elements of one: in a registry of ids, and among the job keys. */
  lemma PatternFinds(xs: seq<string>, size: int, ys: seq<string>)
    requires xs != [] && ys != []
    ensures Plain(InitialSegment(xs, size)) && Plain(JobKey(InitialSegment(xs, size)))
    ensures Matches(StartsWithMatcher(InitialSegment(xs, size)), IdRepr(ys)) <==> FoundBy(xs, Taken(xs, size), ys)
    ensures Matches(StartsWithMatcher(JobKey(InitialSegment(xs, size))), JobKey(IdRepr(ys)))
       <==> FoundBy(xs, Taken(xs, size), ys)
  {
    var m := Taken(xs, size);
    NoWildcards(xs[..m]);
    assert Plain(KEY_PREFIX);
    SegmentPrefix(xs, m, ys);
    StarMatchesPrefix(InitialSegment(xs, size), IdRepr(ys));
    StarMatchesPrefix(JobKey(InitialSegment(xs, size)), JobKey(IdRepr(ys)));
    Behind(KEY_PREFIX, InitialSegment(xs, size), IdRepr(ys));
  }

  /** The documented reading of such a pattern: the first elements are the same. */
  ghost predicate Shares(xs: seq<string>, m: nat, ys: seq<string>)
    requires m <= |xs|
  {
    m <= |ys| && xs[..m] == ys[..m]
  }

  lemma SharesIsFound(xs: seq<string>, m: nat, ys: seq<string>)
    requires 1 <= m <= |xs|
    ensures Shares(xs, m, ys) <==> m <= |ys| && xs[..m - 1] == ys[..m - 1] && xs[m - 1] == ys[m - 1]
    ensures Shares(xs, m, ys) ==> FoundBy(xs, m, ys)
  {
  }

  /** Padding or the marker for empty elements closes the last tag taken. */
  predicate Closed(xs: seq<string>, m: nat)
    requires 1 <= m <= |xs|
  {
    xs[m - 1] == "" || |Encode(xs[m - 1])| % 3 != 0
  }

  /** The pattern finds just what the documentation says exactly when its last tag is closed: for all ids, and also
      among the ids that have tags enough. */
  lemma PatternIsExact(xs: seq<string>, m: nat)
    requires 1 <= m <= |xs|
    ensures Closed(xs, m) <==> forall ys :: ys != [] ==> (FoundBy(xs, m, ys) <==> Shares(xs, m, ys))
    ensures Closed(xs, m) <==> forall tags, u :: m <= |tags| ==>
      (FoundBy(xs, m, IdSeq(tags, u)) <==> Shares(xs, m, IdSeq(tags, u)))
  {
    if Closed(xs, m) {
      forall ys | ys != [] ensures FoundBy(xs, m, ys) <==> Shares(xs, m, ys) {
        SharesIsFound(xs, m, ys);
      }
    } else {
      var tags := xs[..m - 1] + [xs[m - 1] + "x"];
      var ys := IdSeq(tags, "");
      assert ys[..m - 1] == xs[..m - 1] && ys[m - 1] == xs[m - 1] + "x";
      SharesIsFound(xs, m, ys);
      assert |ys[m - 1]| != |xs[m - 1]|;
      assert FoundBy(xs, m, ys) && !Shares(xs, m, ys);
    }
  }

  /** Where the documented reading fails: the pattern for an id with a first tag of unpadded text also finds an id
      whose first tag goes on from it, as `abcd` does from `abc`. */
  lemma PatternOvershoots(tag: string, more: string, u: string, v: string)
    requires tag != "" && more != "" && |Encode(tag)| % 3 == 0
    ensures var xs, ys := IdSeq([tag], u), IdSeq([tag + more], v);
      Plain(InitialSegment(xs, 1)) && Matches(StartsWithMatcher(InitialSegment(xs, 1)), IdRepr(ys))
      && !Shares(xs, 1, ys)
  {
    var xs, ys := IdSeq([tag], u), IdSeq([tag + more], v);
    PatternFinds(xs, 1, ys);
    assert xs[0] == tag && ys[0] == tag + more;
    assert xs[..1][0] == tag && ys[..1][0] == tag + more && |tag| < |tag + more|;
  }

  lemma AbcRunsOn()
    ensures RunsOn("abc", "abcd")
  {
  }

  /** Representations identify ids, and give them back. */
  lemma IdsAreIdentified(xs: seq<string>, ys: seq<string>)
    ensures IdRepr(xs) == IdRepr(ys) <==> xs == ys
    ensures FromB64List(IdRepr(xs)) == Some(xs)
    ensures FromB64List(JobId(JobKey(IdRepr(xs)))) == Some(xs)
  {
    ListsDiffer(xs, ys);
    ListRoundTrip(xs);
    JobKeyRoundTrip(IdRepr(xs), "");
  }

  /** Tasks have the same id just when their tags and their own identifiers are the same. */
  lemma TasksDiffer(tags: seq<string>, unique: string, others: seq<string>, other: string)
    ensures IdRepr(IdSeq(tags, unique)) == IdRepr(IdSeq(others, other)) <==> tags == others && unique == other
  {
    var xs, ys := IdSeq(tags, unique), IdSeq(others, other);
    IdsAreIdentified(xs, ys);
    if xs == ys {
      assert |tags| == |others| && xs[|tags|] == unique && ys[|others|] == other;
      assert tags == xs[..|tags|] && others == ys[..|others|];
    }
  }

  /** An initial segment has the first element at least, as many as asked for, and never more than there are. */
  lemma SegmentSizes(ids: seq<string>, size: int)
    ensures size <= 1 && ids != [] ==> InitialSegment(ids, size) == IdRepr([ids[0]])
    ensures 1 <= size <= |ids| ==> InitialSegment(ids, size) == IdRepr(ids[..size])
    ensures size >= |ids| ==> InitialSegment(ids, size) == IdRepr(ids)
  {
    assert ids != [] ==> ids[..1] == [ids[0]];
    assert ids[..|ids|] == ids;
  }

  // ---- Ids of notification tasks --------------------------------------------------------

  /** Python's `x or ''` on an optional string. */
  function OrEmpty(x: Option<string>): string {
    if x.Some? then x.value else ""
  }

  function FiwareTags(service: Option<string>, path: Option<string>, correlator: Option<string>): seq<string> {
    [OrEmpty(service), OrEmpty(path), OrEmpty(correlator)]
  }

  /** A header that is missing has the same tag as an empty one. */
  lemma TagsOfHeaders(service: Option<string>, path: Option<string>, correlator: Option<string>)
    ensures var tags := FiwareTags(service, path, correlator);
      && |tags| == 3 && (service.Some? ==> tags[0] == service.value) && (service.None? ==> tags[0] == "")
      && (path.Some? ==> tags[1] == path.value) && (path.None? ==> tags[1] == "")
      && (correlator.Some? ==> tags[2] == correlator.value) && (correlator.None? ==> tags[2] == "")
  {
  }

  function SearchSize(correlator: Option<string>): nat {
    if OrEmpty(correlator) != "" then 3 else 2
  }

  /** The pattern built from the headers of a request finds the tasks queued with those headers, and with them those
      that differ only in going on from a last header of unpadded text. */
  lemma HeadersFindTasks(s: Option<string>, p: Option<string>, c: Option<string>, u: string,
                         s': Option<string>, p': Option<string>, c': Option<string>, u': string)
    ensures var pattern := InitialSegment(IdSeq(FiwareTags(s, p, c), u), SearchSize(c));
      Plain(pattern)
      && (Matches(StartsWithMatcher(pattern), IdRepr(IdSeq(FiwareTags(s', p', c'), u'))) <==>
          && OrEmpty(s) == OrEmpty(s')
          && if OrEmpty(c) == "" then OrEmpty(p) == OrEmpty(p') || RunsOn(OrEmpty(p), OrEmpty(p'))
             else OrEmpty(p) == OrEmpty(p') && (OrEmpty(c) == OrEmpty(c') || RunsOn(OrEmpty(c), OrEmpty(c'))))
  {
    var xs, ys := IdSeq(FiwareTags(s, p, c), u), IdSeq(FiwareTags(s', p', c'), u');
    PatternFinds(xs, SearchSize(c), ys);
    FoundByTwo(xs, ys);
    FoundByThree(xs, ys);
    TagsInId(s, p, c, u);
    TagsInId(s', p', c', u');
  }

  lemma TagsInId(s: Option<string>, p: Option<string>, c: Option<string>, u: string)
    ensures IdSeq(FiwareTags(s, p, c), u) == [OrEmpty(s), OrEmpty(p), OrEmpty(c), u]
  {
  }

  lemma FoundByTwo(xs: seq<string>, ys: seq<string>)
    requires |xs| == 4 && |ys| == 4
    ensures FoundBy(xs, 2, ys) <==> xs[0] == ys[0] && (xs[1] == ys[1] || RunsOn(xs[1], ys[1]))
  {
    assert xs[..1] == [xs[0]] && ys[..1] == [ys[0]];
  }

  lemma FoundByThree(xs: seq<string>, ys: seq<string>)
    requires |xs| == 4 && |ys| == 4
    ensures FoundBy(xs, 3, ys) <==> xs[0] == ys[0] && xs[1] == ys[1] && (xs[2] == ys[2] || RunsOn(xs[2], ys[2]))
  {
    assert xs[..2] == [xs[0], xs[1]] && ys[..2] == [ys[0], ys[1]];
  }
}
