/**
 * Shared vocabulary of the model: results and errors, calendar dates, the few
 * Python string operations the pipeline relies on (split, join, slicing,
 * int()/str() of integers) and order-preserving sequence helpers standing in
 * for list comprehensions, DataFrame masks and SQL WHERE clauses.
 */
module Common {

  datatype Option<+T> = None | Some(value: T)

  /** The failures the modelled code raises: Python exceptions, the package's
      own not-found error, and a statement MySQL refuses. */
  datatype Error =
    | KeyError
    | ValueError
    | TypeError
    | IndexError
    | AssertionError
    | PhenotypeNotFound
    | NotImplemented
    | SqlError
    | Unsupported

  datatype Result<+T> = Ok(value: T) | Err(error: Error)

  // ---------------------------------------------------------------------------
  // Dates

  /** A calendar date; compared lexicographically on (year, month, day). */
  datatype Date = Date(year: int, month: int, day: int)

  predicate DateLe(a: Date, b: Date) {
    a.year < b.year ||
    (a.year == b.year && (a.month < b.month || (a.month == b.month && a.day <= b.day)))
  }

  predicate DateLt(a: Date, b: Date) { DateLe(a, b) && a != b }

  /** The "undated" marker every extraction strategy uses. */
  const Sentinel: Date := Date(1900, 1, 1)

  function MinDate(a: Date, b: Date): (m: Date)
    ensures DateLe(m, a) && DateLe(m, b)
    ensures m == a || m == b
  {
    if DateLe(a, b) then a else b
  }

  lemma DateLeTotal(a: Date, b: Date)
    ensures DateLe(a, b) || DateLe(b, a)
    ensures DateLe(a, b) && DateLe(b, a) ==> a == b
  {
  }

  lemma DateLeTrans(a: Date, b: Date, c: Date)
    requires DateLe(a, b) && DateLe(b, c)
    ensures DateLe(a, c)
  {
  }

  // ---------------------------------------------------------------------------
  // Strings

  predicate IsPrefix(p: string, s: string) {
    |p| <= |s| && s[..|p|] == p
  }

  /** Python `sep.join(xs)`. */
  function Join(xs: seq<string>, sep: string): string
  {
    if |xs| == 0 then ""
    else if |xs| == 1 then xs[0]
    else xs[0] + sep + Join(xs[1..], sep)
  }

  /** Python `s.split(c)` for a one-character separator: never empty. */
  function Split(s: string, c: char): (parts: seq<string>)
    ensures |parts| >= 1
    ensures c !in s ==> parts == [s]
  {
    if |s| == 0 then [""]
    else
      var rest := Split(s[1..], c);
      assert c !in s ==> c !in s[1..] && [s[0]] + s[1..] == s;
      if s[0] == c then [""] + rest
      else [[s[0]] + rest[0]] + rest[1..]
  }

  lemma {:induction false} SplitAfterSeparator(a: string, c: char, b: string)
    requires c !in a
    ensures Split(a + [c] + b, c) == [a] + Split(b, c)
  {
    if |a| == 0 {
      assert a + [c] + b == [c] + b;
      assert ([c] + b)[1..] == b;
    } else {
      var s := a + [c] + b;
      assert s[0] == a[0] && s[0] != c;
      assert s[1..] == a[1..] + [c] + b;
      assert c !in a[1..];
      SplitAfterSeparator(a[1..], c, b);
      assert [a[0]] + a[1..] == a;
    }
  }

  /** After the last separator comes the last part. */
  lemma {:induction false} SplitLast(x: string, c: char, t: string)
    requires c !in t
    ensures |Split(x + [c] + t, c)| >= 2
    ensures Split(x + [c] + t, c)[|Split(x + [c] + t, c)| - 1] == t
  {
    var s := x + [c] + t;
    if |x| == 0 {
      assert s[0] == c && s[1..] == t;
      assert Split(s, c) == [""] + Split(t, c);
    } else {
      var tail := x[1..] + [c] + t;
      assert s[0] == x[0] && s[1..] == tail;
      SplitLast(x[1..], c, t);
      var rest := Split(tail, c);
      var parts := Split(s, c);
      if x[0] == c {
        assert parts == [""] + rest;
      } else {
        assert parts == [[x[0]] + rest[0]] + rest[1..];
      }
      assert parts[|parts| - 1] == rest[|rest| - 1];
    }
  }

  /** Splitting a joined list gives the list back when no item holds the separator. */
  lemma {:induction false} SplitJoin(xs: seq<string>, c: char)
    requires |xs| >= 1
    requires forall i :: 0 <= i < |xs| ==> c !in xs[i]
    ensures Split(Join(xs, [c]), c) == xs
  {
    if |xs| > 1 {
      SplitJoin(xs[1..], c);
      SplitAfterSeparator(xs[0], c, Join(xs[1..], [c]));
      assert [xs[0]] + xs[1..] == xs;
    }
  }

  /** Python `s.replace(c, "")` for one character. */
  function RemoveChar(s: string, c: char): (r: string)
    ensures c !in r
    ensures |r| <= |s|
    ensures c !in s ==> r == s
    ensures forall x :: x in r ==> x in s
  {
    if |s| == 0 then ""
    else (if s[0] == c then "" else [s[0]]) + RemoveChar(s[1..], c)
  }

  /** The character test "is not c". */
  function Other(c: char): char -> bool { (x: char) => x != c }

  /** Removing a character keeps every other character, in order. */
  lemma {:induction false} RemoveCharIsFilter(s: string, c: char)
    ensures RemoveChar(s, c) == Filter(s, Other(c))
  {
    if |s| > 0 {
      var head, tail := [s[0]], s[1..];
      RemoveCharIsFilter(tail, c);
      FilterAppend(head, tail, Other(c));
      assert head + tail == s;
      assert head[..0] == [];
      assert Filter(head, Other(c)) == if s[0] == c then [] else head;
    }
  }

  /** Python slicing `s[0:n]`: the whole string when it is shorter than n. */
  function Take(s: string, n: nat): (r: string)
    ensures |r| <= n && IsPrefix(r, s)
    ensures |r| == (if |s| < n then |s| else n)
    ensures |s| <= n ==> r == s
  {
    if |s| <= n then s else s[..n]
  }

  // ---------------------------------------------------------------------------
  // Python int() and str() on integers

  predicate IsDigit(ch: char) { '0' <= ch <= '9' }

  predicate AllDigits(s: string) { forall i :: 0 <= i < |s| ==> IsDigit(s[i]) }

  function DigitValue(ch: char): nat
    requires IsDigit(ch)
  {
    (ch as int) - ('0' as int)
  }

  /** Value of a run of decimal digits, read left to right. */
  function DigitsValue(s: string): nat
    requires AllDigits(s)
  {
    if |s| == 0 then 0 else DigitsValue(s[..|s| - 1]) * 10 + DigitValue(s[|s| - 1])
  }

  /** Python `int(s)`: an optional sign followed by at least one digit. */
  function ParseInt(s: string): (r: Result<int>)
    ensures r.Err? ==> r.error == ValueError
    ensures |s| > 0 && AllDigits(s) ==> r == Ok(DigitsValue(s))
  {
    if |s| == 0 then Err(ValueError)
    else if s[0] == '-' || s[0] == '+' then
      var d := s[1..];
      if |d| > 0 && AllDigits(d) then
        var v: int := DigitsValue(d);
        Ok(if s[0] == '-' then -v else v)
      else Err(ValueError)
    else if AllDigits(s) then Ok(DigitsValue(s))
    else Err(ValueError)
  }

  function DigitChar(d: nat): (ch: char)
    requires d < 10
    ensures IsDigit(ch) && DigitValue(ch) == d
  {
    ('0' as int + d) as char
  }

  /** Python `str(n)` for a natural number. */
  function Show(n: nat): (s: string)
    ensures |s| >= 1 && AllDigits(s)
  {
    if n < 10 then [DigitChar(n)] else Show(n / 10) + [DigitChar(n % 10)]
  }

  /** Python `str(i)` for any integer. */
  function ShowInt(i: int): string
  {
    if i < 0 then "-" + Show(-i) else Show(i)
  }

  lemma {:induction false} ShowValue(n: nat)
    ensures DigitsValue(Show(n)) == n
  {
    if n >= 10 {
      var s := Show(n);
      assert s[..|s| - 1] == Show(n / 10);
      ShowValue(n / 10);
    }
  }

  /** int(str(n)) == n for a natural number. */
  lemma ParseShow(n: nat)
    ensures ParseInt(Show(n)) == Ok(n)
  {
    var s := Show(n);
    assert IsDigit(s[0]);
    ShowValue(n);
  }

  /** int(str(i)) == i. */
  lemma ParseShowInt(i: int)
    ensures ParseInt(ShowInt(i)) == Ok(i)
  {
    if i < 0 {
      var d := Show(-i);
      ShowValue(-i);
      assert ("-" + d)[1..] == d;
    } else {
      ParseShow(i);
    }
  }

  // ---------------------------------------------------------------------------
  // Order-preserving sequence helpers

  /** The elements of s satisfying p, in order (a comprehension with `if`). */
  function Filter<T>(s: seq<T>, p: T -> bool): (r: seq<T>)
    ensures |r| <= |s|
  {
    if |s| == 0 then [] else Filter(s[..|s| - 1], p) + (if p(s[|s| - 1]) then [s[|s| - 1]] else [])
  }

  lemma {:induction false} FilterMembership<T>(s: seq<T>, p: T -> bool, x: T)
    ensures x in Filter(s, p) <==> x in s && p(x)
  {
    if |s| > 0 {
      FilterMembership(s[..|s| - 1], p, x);
      assert s == s[..|s| - 1] + [s[|s| - 1]];
    }
  }

  lemma {:induction false} FilterAppend<T>(a: seq<T>, b: seq<T>, p: T -> bool)
    ensures Filter(a + b, p) == Filter(a, p) + Filter(b, p)
  {
    if |b| > 0 {
      assert (a + b)[..|a + b| - 1] == a + b[..|b| - 1];
      FilterAppend(a, b[..|b| - 1], p);
    } else {
      assert a + b == a;
    }
  }

  /** Filtering twice is filtering once by the conjunction. */
  lemma {:induction false} FilterTwice<T>(s: seq<T>, p: T -> bool, q: T -> bool, pq: T -> bool)
    requires forall x :: x in s ==> pq(x) == (p(x) && q(x))
    ensures Filter(Filter(s, p), q) == Filter(s, pq)
  {
    if |s| > 0 {
      var init, last := s[..|s| - 1], s[|s| - 1];
      assert forall x :: x in init ==> x in s;
      FilterTwice(init, p, q, pq);
      FilterAppend(Filter(init, p), if p(last) then [last] else [], q);
      assert last in s;
    }
  }

  /** A filter every element passes keeps the whole sequence. */
  lemma {:induction false} FilterAll<T>(s: seq<T>, p: T -> bool)
    requires forall x :: x in s ==> p(x)
    ensures Filter(s, p) == s
  {
    if |s| > 0 {
      assert forall x :: x in s[..|s| - 1] ==> x in s;
      FilterAll(s[..|s| - 1], p);
      assert s[|s| - 1] in s;
      assert s[..|s| - 1] + [s[|s| - 1]] == s;
    }
  }

  /** Filters that agree on every element give the same result. */
  lemma {:induction false} FilterCongruent<T>(s: seq<T>, p: T -> bool, q: T -> bool)
    requires forall x :: x in s ==> p(x) == q(x)
    ensures Filter(s, p) == Filter(s, q)
  {
    if |s| > 0 {
      assert forall x :: x in s[..|s| - 1] ==> x in s;
      FilterCongruent(s[..|s| - 1], p, q);
      assert s[|s| - 1] in s;
    }
  }

  /** Number of elements of s satisfying p. */
  function Count<T>(s: seq<T>, p: T -> bool): nat
  {
    if |s| == 0 then 0 else Count(s[..|s| - 1], p) + (if p(s[|s| - 1]) then 1 else 0)
  }

  lemma {:induction false} FilterCount<T>(s: seq<T>, p: T -> bool)
    ensures |Filter(s, p)| == Count(s, p)
  {
    if |s| > 0 {
      FilterCount(s[..|s| - 1], p);
    }
  }

  /** Concatenation of f over s, in order (a nested-loop join). */
  function FlatMap<T, U>(s: seq<T>, f: T -> seq<U>): seq<U>
  {
    if |s| == 0 then [] else FlatMap(s[..|s| - 1], f) + f(s[|s| - 1])
  }

  lemma {:induction false} FlatMapMembership<T, U>(s: seq<T>, f: T -> seq<U>, y: U)
    ensures y in FlatMap(s, f) <==> exists x :: x in s && y in f(x)
  {
    if |s| > 0 {
      var init, last := s[..|s| - 1], s[|s| - 1];
      FlatMapMembership(init, f, y);
      assert s == init + [last];
      if y in FlatMap(init, f) {
        var x :| x in init && y in f(x);
        assert x in s;
      }
    }
  }

  lemma {:induction false} FlatMapAppend<T, U>(a: seq<T>, b: seq<T>, f: T -> seq<U>)
    ensures FlatMap(a + b, f) == FlatMap(a, f) + FlatMap(b, f)
  {
    if |b| > 0 {
      assert (a + b)[..|a + b| - 1] == a + b[..|b| - 1];
      FlatMapAppend(a, b[..|b| - 1], f);
    } else {
      assert a + b == a;
    }
  }

  /** Concatenation of a list of lists. */
  function Flatten<T>(xss: seq<seq<T>>): seq<T>
  {
    if |xss| == 0 then [] else Flatten(xss[..|xss| - 1]) + xss[|xss| - 1]
  }

  lemma {:induction false} FlattenAppend<T>(a: seq<seq<T>>, b: seq<seq<T>>)
    ensures Flatten(a + b) == Flatten(a) + Flatten(b)
  {
    if |b| > 0 {
      assert (a + b)[..|a + b| - 1] == a + b[..|b| - 1];
      FlattenAppend(a, b[..|b| - 1]);
    } else {
      assert a + b == a;
    }
  }

  /** f applied to each element, in order. */
  function Map<T, U>(s: seq<T>, f: T -> U): (r: seq<U>)
    ensures |r| == |s|
    ensures forall i :: 0 <= i < |s| ==> r[i] == f(s[i])
  {
    seq(|s|, i requires 0 <= i < |s| => f(s[i]))
  }

  lemma MapMembership<T, U>(s: seq<T>, f: T -> U, y: U)
    ensures y in Map(s, f) <==> exists x :: x in s && y == f(x)
  {
    if y in Map(s, f) {
      var i :| 0 <= i < |s| && Map(s, f)[i] == y;
      assert s[i] in s;
    }
    if exists x :: x in s && y == f(x) {
      var x :| x in s && y == f(x);
      var i :| 0 <= i < |s| && s[i] == x;
      assert Map(s, f)[i] == y;
    }
  }

  // ---------------------------------------------------------------------------
  // Joins, evaluated as nested loops: the outer table in order, and for each
  // outer row the matching inner rows in order.

  /** The inner rows matching one outer row, each combined with it. */
  function Matches<A, B, C>(a: A, bs: seq<B>, on: (A, B) -> bool, make: (A, B) -> C): seq<C>
  {
    if |bs| == 0 then []
    else
      var b := bs[|bs| - 1];
      Matches(a, bs[..|bs| - 1], on, make) + (if on(a, b) then [make(a, b)] else [])
  }

  lemma {:induction false} MatchesMembership<A, B, C>(a: A, bs: seq<B>, on: (A, B) -> bool, make: (A, B) -> C, c: C)
    ensures c in Matches(a, bs, on, make) <==> exists b :: b in bs && on(a, b) && c == make(a, b)
  {
    if |bs| > 0 {
      var init, last := bs[..|bs| - 1], bs[|bs| - 1];
      MatchesMembership(a, init, on, make, c);
      assert bs == init + [last];
      if c in Matches(a, init, on, make) {
        var b :| b in init && on(a, b) && c == make(a, b);
        assert b in bs;
      }
    }
  }

  lemma {:induction false} MatchesEmpty<A, B, C>(a: A, bs: seq<B>, on: (A, B) -> bool, make: (A, B) -> C)
    ensures |Matches(a, bs, on, make)| == 0 <==> forall b :: b in bs ==> !on(a, b)
  {
    if |bs| > 0 {
      var init := bs[..|bs| - 1];
      MatchesEmpty(a, init, on, make);
      assert bs == init + [bs[|bs| - 1]];
    }
  }

  /** SELECT ... FROM outer, inner WHERE on(a, b). */
  function InnerJoin<A, B, C>(outer: seq<A>, bs: seq<B>, on: (A, B) -> bool, make: (A, B) -> C): seq<C>
  {
    FlatMap(outer, a => Matches(a, bs, on, make))
  }

  lemma InnerJoinMembership<A, B, C>(outer: seq<A>, bs: seq<B>, on: (A, B) -> bool, make: (A, B) -> C, c: C)
    ensures c in InnerJoin(outer, bs, on, make) <==> exists a, b :: a in outer && b in bs && on(a, b) && c == make(a, b)
  {
    FlatMapMembership(outer, a => Matches(a, bs, on, make), c);
    if c in InnerJoin(outer, bs, on, make) {
      var a :| a in outer && c in Matches(a, bs, on, make);
      MatchesMembership(a, bs, on, make, c);
    }
    if exists a, b :: a in outer && b in bs && on(a, b) && c == make(a, b) {
      var a, b :| a in outer && b in bs && on(a, b) && c == make(a, b);
      MatchesMembership(a, bs, on, make, c);
    }
  }

  /** A LEFT JOIN row builder applied to a row that did match. */
  function WithSome<A, B, C>(make: (A, Option<B>) -> C): (A, B) -> C
  {
    (a: A, b: B) => make(a, Some(b))
  }

  /** The rows one outer row contributes to a LEFT JOIN: its matches, or one row
      with NULL for the inner table when nothing matches. */
  function LeftMatches<A, B, C>(a: A, bs: seq<B>, on: (A, B) -> bool, make: (A, Option<B>) -> C): seq<C>
  {
    var ms := Matches(a, bs, on, WithSome(make));
    if |ms| == 0 then [make(a, None)] else ms
  }

  /** SELECT ... FROM outer LEFT JOIN inner ON on(a, b). */
  function LeftJoin<A, B, C>(outer: seq<A>, bs: seq<B>, on: (A, B) -> bool, make: (A, Option<B>) -> C): seq<C>
  {
    FlatMap(outer, a => LeftMatches(a, bs, on, make))
  }

  lemma LeftMatchesMembership<A, B, C>(a: A, bs: seq<B>, on: (A, B) -> bool, make: (A, Option<B>) -> C, c: C)
    ensures c in LeftMatches(a, bs, on, make) <==>
      (exists b :: b in bs && on(a, b) && c == make(a, Some(b))) ||
      ((forall b :: b in bs ==> !on(a, b)) && c == make(a, None))
  {
    var mk := WithSome(make);
    MatchesMembership(a, bs, on, mk, c);
    MatchesEmpty(a, bs, on, mk);
  }

  /** A LEFT JOIN row comes from an outer row and either a matching inner row or,
      when the outer row matches nothing, NULL. */
  lemma LeftJoinMembership<A, B, C>(outer: seq<A>, bs: seq<B>, on: (A, B) -> bool, make: (A, Option<B>) -> C, c: C)
    ensures c in LeftJoin(outer, bs, on, make) <==>
      exists a :: a in outer && (
        (exists b :: b in bs && on(a, b) && c == make(a, Some(b))) ||
        ((forall b :: b in bs ==> !on(a, b)) && c == make(a, None)))
  {
    FlatMapMembership(outer, a => LeftMatches(a, bs, on, make), c);
    if c in LeftJoin(outer, bs, on, make) {
      var a :| a in outer && c in LeftMatches(a, bs, on, make);
      LeftMatchesMembership(a, bs, on, make, c);
    }
    if exists a :: a in outer && (
        (exists b :: b in bs && on(a, b) && c == make(a, Some(b))) ||
        ((forall b :: b in bs ==> !on(a, b)) && c == make(a, None))) {
      var a :| a in outer && (
        (exists b :: b in bs && on(a, b) && c == make(a, Some(b))) ||
        ((forall b :: b in bs ==> !on(a, b)) && c == make(a, None)));
      LeftMatchesMembership(a, bs, on, make, c);
    }
  }

  /** m is what a LEFT JOIN pairs the outer row a with: a matching inner row, or NULL when none matches. */
  ghost predicate LeftPartner<A, B>(a: A, bs: seq<B>, on: (A, B) -> bool, m: Option<B>)
  {
    if m.Some? then m.value in bs && on(a, m.value) else forall b :: b in bs ==> !on(a, b)
  }

  /** Every outer row has a LEFT JOIN partner. */
  lemma LeftPartnerExists<A, B>(a: A, bs: seq<B>, on: (A, B) -> bool)
    ensures exists m :: LeftPartner(a, bs, on, m)
  {
    if exists b :: b in bs && on(a, b) {
      var b :| b in bs && on(a, b);
      assert LeftPartner(a, bs, on, Some(b));
    } else {
      assert LeftPartner(a, bs, on, None);
    }
  }

  /** The LEFT JOIN holds exactly the rows made from an outer row and one of its partners. */
  lemma LeftJoinPartners<A, B, C>(outer: seq<A>, bs: seq<B>, on: (A, B) -> bool, make: (A, Option<B>) -> C, c: C)
    ensures c in LeftJoin(outer, bs, on, make) <==>
      exists a, m :: a in outer && LeftPartner(a, bs, on, m) && c == make(a, m)
  {
    LeftJoinMembership(outer, bs, on, make, c);
    if c in LeftJoin(outer, bs, on, make) {
      var a :| a in outer && (
        (exists b :: b in bs && on(a, b) && c == make(a, Some(b))) ||
        ((forall b :: b in bs ==> !on(a, b)) && c == make(a, None)));
      if exists b :: b in bs && on(a, b) && c == make(a, Some(b)) {
        var b :| b in bs && on(a, b) && c == make(a, Some(b));
        assert LeftPartner(a, bs, on, Some(b));
      } else {
        assert LeftPartner(a, bs, on, None);
      }
    }
    if exists a, m :: a in outer && LeftPartner(a, bs, on, m) && c == make(a, m) {
      var a, m :| a in outer && LeftPartner(a, bs, on, m) && c == make(a, m);
      if m.Some? {
        assert c == make(a, Some(m.value));
      }
    }
  }

  lemma {:induction false} MatchesAtMostOne<A, B, C>(a: A, bs: seq<B>, on: (A, B) -> bool, make: (A, B) -> C)
    requires forall i, j :: 0 <= i < j < |bs| && on(a, bs[i]) ==> !on(a, bs[j])
    ensures |Matches(a, bs, on, make)| <= 1
  {
    if |bs| > 0 {
      var init := bs[..|bs| - 1];
      MatchesAtMostOne(a, init, on, make);
      if on(a, bs[|bs| - 1]) {
        MatchesEmpty(a, init, on, make);
        forall b | b in init ensures !on(a, b) {
          var i :| 0 <= i < |init| && init[i] == b;
          assert bs[i] == b;
        }
      }
    }
  }

  /** When every outer row matches at most one inner row, a LEFT JOIN yields exactly
      one row per outer row: it neither drops nor duplicates them. */
  lemma {:induction false} LeftJoinOnePerRow<A, B, C>(outer: seq<A>, bs: seq<B>, on: (A, B) -> bool, make: (A, Option<B>) -> C)
    requires forall a, i, j :: a in outer && 0 <= i < j < |bs| && on(a, bs[i]) ==> !on(a, bs[j])
    ensures |LeftJoin(outer, bs, on, make)| == |outer|
  {
    if |outer| > 0 {
      var init, last := outer[..|outer| - 1], outer[|outer| - 1];
      assert forall a :: a in init ==> a in outer;
      LeftJoinOnePerRow(init, bs, on, make);
      assert last in outer;
      MatchesAtMostOne(last, bs, on, WithSome(make));
    }
  }

  // ---------------------------------------------------------------------------
  // Date text

  /** A field of a date text: a non-empty run of digits. */
  predicate DatePart(s: string) { |s| > 0 && AllDigits(s) }

  /** A plausible calendar date: month 1..12, day 1..31. */
  predicate ValidDate(d: Date) { d.year >= 0 && 1 <= d.month <= 12 && 1 <= d.day <= 31 }

  /** The three digit groups of a date text separated by '-', read as numbers. */
  function DateFields(s: string): Option<(nat, nat, nat)>
  {
    var parts := Split(s, '-');
    if |parts| == 3 && DatePart(parts[0]) && DatePart(parts[1]) && DatePart(parts[2]) then
      Some((DigitsValue(parts[0]), DigitsValue(parts[1]), DigitsValue(parts[2])))
    else None
  }

  /** Three digit groups joined by '-' are read as their values. */
  lemma DateFieldsParts(a: string, b: string, c: string)
    requires DatePart(a) && DatePart(b) && DatePart(c)
    ensures DateFields(a + "-" + b + "-" + c) == Some((DigitsValue(a), DigitsValue(b), DigitsValue(c)))
  {
    NoDashInDigits(a);
    NoDashInDigits(b);
    NoDashInDigits(c);
    var bc := b + ['-'] + c;
    SplitAfterSeparator(b, '-', c);
    assert Split(bc, '-') == [b, c];
    SplitAfterSeparator(a, '-', bc);
    assert a + "-" + b + "-" + c == a + ['-'] + bc;
  }

  lemma NoDashInDigits(s: string)
    requires AllDigits(s)
    ensures '-' !in s
  {
    forall i | 0 <= i < |s| ensures s[i] != '-' {
      assert IsDigit(s[i]);
    }
  }

  /**
   * MySQL STR_TO_DATE(s, '%Y-%m-%d'): the date when s is three digit groups
   * separated by '-' naming a month 1..12 and a day 1..31, NULL otherwise.
   */
  function ParseIsoDate(s: string): (r: Option<Date>)
    ensures r.Some? ==> ValidDate(r.value)
  {
    match DateFields(s)
    case Some((y, m, d)) => if ValidDate(Date(y, m, d)) then Some(Date(y, m, d)) else None
    case None => None
  }

  /** 'YYYY-MM-DD' text of a date (without zero padding). */
  function ShowIsoDate(d: Date): (s: string)
    requires ValidDate(d)
  {
    Show(d.year) + "-" + Show(d.month) + "-" + Show(d.day)
  }

  /** The zero-padded two-digit text of a day or a month. */
  function Pad2(n: nat): string
  {
    if n < 10 then "0" + Show(n) else Show(n)
  }

  lemma {:induction false} LeadingZero(t: string)
    requires AllDigits(t)
    ensures AllDigits("0" + t) && DigitsValue("0" + t) == DigitsValue(t)
  {
    if |t| > 0 {
      LeadingZero(t[..|t| - 1]);
      assert ("0" + t)[..|t|] == "0" + t[..|t| - 1];
    }
  }

  lemma Pad2Value(n: nat)
    ensures DatePart(Pad2(n)) && DigitsValue(Pad2(n)) == n
  {
    ShowValue(n);
    if n < 10 {
      LeadingZero(Show(n));
    }
  }

  /** strftime("%Y-%m-%d"). */
  function PaddedIso(d: Date): string
    requires ValidDate(d)
  {
    Show(d.year) + "-" + Pad2(d.month) + "-" + Pad2(d.day)
  }

  /** strftime("%d-%m-%Y"). */
  function PaddedDmy(d: Date): string
    requires ValidDate(d)
  {
    Pad2(d.day) + "-" + Pad2(d.month) + "-" + Show(d.year)
  }

  /** Three digit groups joined by '-' read as the date they spell, when it is valid. */
  lemma ParseIsoDateParts(y: string, m: string, dd: string)
    requires DatePart(y) && DatePart(m) && DatePart(dd)
    requires ValidDate(Date(DigitsValue(y), DigitsValue(m), DigitsValue(dd)))
    ensures ParseIsoDate(y + "-" + m + "-" + dd) == Some(Date(DigitsValue(y), DigitsValue(m), DigitsValue(dd)))
  {
    DateFieldsParts(y, m, dd);
  }

  /** Reading back the zero-padded text of a valid date gives the date. */
  lemma ParsePaddedIso(d: Date)
    requires ValidDate(d)
    ensures ParseIsoDate(PaddedIso(d)) == Some(d)
  {
    ShowValue(d.year);
    Pad2Value(d.month);
    Pad2Value(d.day);
    ParseIsoDateParts(Show(d.year), Pad2(d.month), Pad2(d.day));
  }

  /** Reading back the text of a valid date gives the date. */
  lemma IsoDateRoundTrip(d: Date)
    requires ValidDate(d)
    ensures ParseIsoDate(ShowIsoDate(d)) == Some(d)
  {
    ShowValue(d.year);
    ShowValue(d.month);
    ShowValue(d.day);
    ParseIsoDateParts(Show(d.year), Show(d.month), Show(d.day));
  }

  /** t occurs in s starting at index i. */
  predicate OccursAt(s: string, t: string, i: int)
  {
    0 <= i && i + |t| <= |s| && s[i..i + |t|] == t
  }

  /** Python `t in s` for strings: t occurs in s as a contiguous piece. */
  predicate Contains(s: string, t: string)
  {
    exists i :: 0 <= i <= |s| && OccursAt(s, t, i)
  }

  /** A text lacking the first character of t does not contain t. */
  lemma NotContainsWithoutFirst(s: string, t: string)
    requires |t| > 0 && t[0] !in s
    ensures !Contains(s, t)
  {
    forall i | 0 <= i && i + |t| <= |s| ensures !OccursAt(s, t, i) {
      assert s[i..i + |t|][0] == s[i];
    }
  }

  /** t occurs in a + t + b. */
  lemma ContainsMiddle(a: string, t: string, b: string)
    ensures Contains(a + t + b, t)
  {
    assert 0 <= |a| <= |a + t + b| && OccursAt(a + t + b, t, |a|);
  }

  // ---------------------------------------------------------------------------
  // Grouping

  /** The distinct keys of the rows, in order of first appearance (DISTINCT, GROUP BY). */
  function DistinctKeys<T(!new), K(==,!new)>(s: seq<T>, key: T -> K): (ks: seq<K>)
    ensures forall i, j :: 0 <= i < j < |ks| ==> ks[i] != ks[j]
    ensures forall k :: k in ks <==> exists x :: x in s && key(x) == k
  {
    if |s| == 0 then []
    else
      var init := s[..|s| - 1];
      var ks := DistinctKeys(init, key);
      var k := key(s[|s| - 1]);
      assert forall x :: x in s <==> x in init || x == s[|s| - 1];
      if k in ks then ks else ks + [k]
  }

  // ---------------------------------------------------------------------------
  // Python string order

  /** Python's `<=` on str: code point by code point, a proper prefix first. */
  predicate TextLe(a: string, b: string)
  {
    |a| == 0 || (|b| > 0 && (a[0] < b[0] || (a[0] == b[0] && TextLe(a[1..], b[1..]))))
  }

  lemma {:induction false} TextLeTotal(a: string, b: string)
    ensures TextLe(a, b) || TextLe(b, a)
  {
    if |a| > 0 && |b| > 0 && a[0] == b[0] {
      TextLeTotal(a[1..], b[1..]);
    }
  }

  lemma {:induction false} TextLeTrans(a: string, b: string, c: string)
    requires TextLe(a, b) && TextLe(b, c)
    ensures TextLe(a, c)
  {
    if |a| > 0 && |b| > 0 && |c| > 0 && a[0] == b[0] && b[0] == c[0] {
      TextLeTrans(a[1..], b[1..], c[1..]);
    }
  }

  /** A text whose first character is smaller comes first, whatever follows. */
  lemma TextLeFirstChar(a: string, b: string)
    requires |a| > 0 && |b| > 0 && a[0] < b[0]
    ensures TextLe(a, b) && !TextLe(b, a)
  {
  }

  /** Python `min` over a non-empty list of str. */
  function MinText(xs: seq<string>): (m: string)
    requires |xs| > 0
    ensures m in xs && forall x :: x in xs ==> TextLe(m, x)
  {
    if |xs| == 1 then
      TextLeTotal(xs[0], xs[0]);
      xs[0]
    else
      var rest := MinText(xs[1..]);
      TextLeTotal(xs[0], rest);
      assert forall x :: x in xs ==> x == xs[0] || x in xs[1..];
      if TextLe(xs[0], rest) then
        TextLeTotal(xs[0], xs[0]);
        assert forall x :: x in xs[1..] ==> TextLe(xs[0], x) by {
          forall x | x in xs[1..] ensures TextLe(xs[0], x) {
            TextLeTrans(xs[0], rest, x);
          }
        }
        xs[0]
      else
        rest
  }

  /** The earliest of a non-empty list of dates. */
  function EarliestDate(ds: seq<Date>): (m: Date)
    requires |ds| > 0
    ensures m in ds && forall d :: d in ds ==> DateLe(m, d)
  {
    if |ds| == 1 then ds[0]
    else
      var rest := EarliestDate(ds[1..]);
      assert forall x :: x in ds ==> x == ds[0] || x in ds[1..];
      MinDate(ds[0], rest)
  }
}
