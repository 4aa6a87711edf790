/** The string operations the modelled code relies on, on ASCII letters where case matters. */
module Strings {
  import opened Sequences

  // ---- Case -----------------------------------------------------------------------------

  function LowerChar(c: char): char {
    if 'A' <= c <= 'Z' then ((c as int) + 32) as char else c
  }

  function Lower(s: string): (r: string)
    ensures |r| == |s|
  {
    if s == "" then "" else [LowerChar(s[0])] + Lower(s[1..])
  }

  lemma {:induction false} LowerAt(s: string, i: nat)
    requires i < |s|
    ensures Lower(s)[i] == LowerChar(s[i])
  {
    if i > 0 { LowerAt(s[1..], i - 1); }
  }

  lemma {:induction false} LowerConcat(a: string, b: string)
    ensures Lower(a + b) == Lower(a) + Lower(b)
  {
    if a == "" {
      assert a + b == b;
    } else {
      assert (a + b)[1..] == a[1..] + b;
      LowerConcat(a[1..], b);
    }
  }

  lemma {:induction false} LowerTwice(s: string)
    ensures Lower(Lower(s)) == Lower(s)
  {
    if s != "" { LowerTwice(s[1..]); }
  }

  lemma HasNoUpper(s: string)
    requires forall i :: 0 <= i < |s| ==> !('A' <= s[i] <= 'Z')
    ensures Lower(s) == s
  {
    forall i | 0 <= i < |s| ensures Lower(s)[i] == s[i] { LowerAt(s, i); }
  }

  /** The k-th capital letter becomes the k-th small one, anything else stays. */
  lemma LowerLetters(k: nat, c: char)
    ensures k < 26 ==> LowerChar('A' + k as char) == 'a' + k as char
    ensures c < 'A' || 'Z' < c ==> LowerChar(c) == c
  {
  }

  predicate Contains(s: string, part: string) {
    part <= s || (s != "" && Contains(s[1..], part))
  }

  /** A text contains another just when it stands somewhere in it. */
  lemma {:induction false} ContainsIs(s: string, part: string)
    ensures Contains(s, part) <==> exists a, b :: s == a + part + b
  {
    if Contains(s, part) {
      if part <= s {
        assert s == "" + part + s[|part|..];
      } else {
        ContainsIs(s[1..], part);
        var a, b :| s[1..] == a + part + b;
        assert s == ([s[0]] + a) + part + b;
      }
    }
    if a, b :| s == a + part + b {
      if a == "" {
        assert part == s[..|part|];
      } else {
        assert s[1..] == a[1..] + part + b;
        ContainsIs(s[1..], part);
      }
    }
  }

  // ---- Ordering -------------------------------------------------------------------------

  /** Lexicographic order on code points, Python's order on strings. */
  predicate Leq(a: string, b: string) {
    a == "" || (b != "" && (a[0] < b[0] || (a[0] == b[0] && Leq(a[1..], b[1..]))))
  }

  lemma {:induction false} LeqTotal(a: string, b: string)
    ensures Leq(a, b) || Leq(b, a)
  {
    if a != "" && b != "" { LeqTotal(a[1..], b[1..]); }
  }

  lemma {:induction false} LeqAntisymmetric(a: string, b: string)
    requires Leq(a, b) && Leq(b, a)
    ensures a == b
  {
    if a != "" {
      LeqAntisymmetric(a[1..], b[1..]);
      assert a == [a[0]] + a[1..] && b == [b[0]] + b[1..];
    }
  }

  lemma {:induction false} LeqTransitive(a: string, b: string, c: string)
    requires Leq(a, b) && Leq(b, c)
    ensures Leq(a, c)
  {
    if a != "" && a[0] == b[0] == c[0] { LeqTransitive(a[1..], b[1..], c[1..]); }
  }

  predicate IsLeast(x: string, s: set<string>) {
    x in s && forall y | y in s :: Leq(x, y)
  }

  lemma {:induction false} LeastExists(s: set<string>)
    requires s != {}
    ensures exists x :: IsLeast(x, s)
  {
    var e :| e in s;
    var rest := s - {e};
    if rest == {} {
      LeqTotal(e, e);
      assert s == {e};
      assert IsLeast(e, s);
    } else {
      LeastExists(rest);
      var x :| IsLeast(x, rest);
      LeqTotal(e, x);
      LeqTotal(e, e);
      var least := if Leq(e, x) then e else x;
      forall y | y in s ensures Leq(least, y) {
        if y != e && least == e { LeqTransitive(e, x, y); }
      }
      assert IsLeast(least, s);
    }
  }

  function Least(s: set<string>): (x: string)
    requires s != {}
    ensures IsLeast(x, s)
  {
    LeastExists(s);
    assert forall x, y | IsLeast(x, s) && IsLeast(y, s) :: x == y by {
      forall x, y | IsLeast(x, s) && IsLeast(y, s) ensures x == y { LeqAntisymmetric(x, y); }
    }
    var x :| x in s && IsLeast(x, s);
    x
  }

  /** `sorted(...)` on a set of strings: ascending, each element once. */
  function Sorted(s: set<string>): (r: seq<string>)
    ensures forall x :: x in r <==> x in s
    ensures Distinct(r)
    ensures forall i, j :: 0 <= i < j < |r| ==> Leq(r[i], r[j])
  {
    if s == {} then [] else
      var x := Least(s);
      var rest := Sorted(s - {x});
      assert forall i :: 0 <= i < |rest| ==> rest[i] in s - {x};
      [x] + rest
  }

  // ---- Splitting ------------------------------------------------------------------------

  function Split(s: string, sep: char): (r: seq<string>)
    ensures |r| >= 1
  {
    if s == "" then [""]
    else
      var rest := Split(s[1..], sep);
      if s[0] == sep then [""] + rest else [[s[0]] + rest[0]] + rest[1..]
  }

  function Join(xs: seq<string>, sep: char): string {
    if xs == [] then "" else if |xs| == 1 then xs[0] else xs[0] + [sep] + Join(xs[1..], sep)
  }

  lemma {:induction false} SplitPiece(s: string, sep: char, rest: string)
    requires sep !in s
    ensures Split(s + [sep] + rest, sep) == [s] + Split(rest, sep)
  {
    var t := s + [sep] + rest;
    if s == "" {
      assert t[1..] == rest;
    } else {
      assert t[1..] == s[1..] + [sep] + rest;
      SplitPiece(s[1..], sep, rest);
      assert s == [s[0]] + s[1..];
    }
  }

  lemma {:induction false} SplitWhole(s: string, sep: char)
    requires sep !in s
    ensures Split(s, sep) == [s]
  {
    if s != "" {
      SplitWhole(s[1..], sep);
      assert s == [s[0]] + s[1..];
    }
  }

  /** Splitting undoes joining when no piece holds the separator. */
  lemma {:induction false} SplitJoin(xs: seq<string>, sep: char)
    requires xs != [] && forall x :: x in xs ==> sep !in x
    ensures Split(Join(xs, sep), sep) == xs
  {
    if |xs| == 1 {
      SplitWhole(xs[0], sep);
    } else {
      SplitJoin(xs[1..], sep);
      SplitPiece(xs[0], sep, Join(xs[1..], sep));
    }
  }

  /** Python's `s.replace(" ", "")`. */
  function StripSpaces(s: string): (r: string)
    ensures ' ' !in r
  {
    if s == "" then "" else (if s[0] == ' ' then "" else [s[0]]) + StripSpaces(s[1..])
  }

  lemma {:induction false} JoinSplit(s: string, sep: char)
    ensures Join(Split(s, sep), sep) == s
  {
    if s != "" {
      JoinSplit(s[1..], sep);
      assert s == [s[0]] + s[1..];
      var rest := Split(s[1..], sep);
      if s[0] == sep {
        assert Split(s, sep)[1..] == rest;
      } else {
        assert Split(s, sep)[1..] == rest[1..];
        assert Split(s, sep)[0] == [s[0]] + rest[0];
      }
    }
  }

  lemma {:induction false} SplitMembers(s: string, sep: char)
    ensures forall p :: p in Split(s, sep) ==> sep !in p && forall c :: c in p ==> c in s
  {
    if s != "" {
      SplitMembers(s[1..], sep);
      var rest := Split(s[1..], sep);
      assert rest[0] in rest && s == [s[0]] + s[1..];
      assert forall p :: p in rest[1..] ==> p in rest;
    }
  }

  function NotSpace(): char -> bool {
    (c: char) => c != ' '
  }

  lemma {:induction false} StripSpacesFilters(s: string)
    ensures StripSpaces(s) == Filter(NotSpace(), s)
  {
    if s != "" { StripSpacesFilters(s[1..]); }
  }
}
