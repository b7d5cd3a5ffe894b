/** Values and sequence combinators shared by the whole model, and the
    textual renderings the reports use: Go's `%v` of a string slice, `%t`
    of a bool and `%d` of an unsigned id. */
module Common {

  datatype Option<T> = None | Some(value: T)

  /** `f` applied to every element, in order. */
  function Map<T, U>(f: T -> U, xs: seq<T>): (ys: seq<U>)
    ensures |ys| == |xs|
    ensures forall i :: 0 <= i < |xs| ==> ys[i] == f(xs[i])
  {
    if xs == [] then [] else [f(xs[0])] + Map(f, xs[1..])
  }

  lemma {:induction false} MapAppend<T, U>(f: T -> U, a: seq<T>, b: seq<T>)
    ensures Map(f, a + b) == Map(f, a) + Map(f, b)
  {
    // pointwise, from the contract of Map
    assert |Map(f, a + b)| == |Map(f, a) + Map(f, b)|;
    forall i | 0 <= i < |a + b|
      ensures Map(f, a + b)[i] == (Map(f, a) + Map(f, b))[i]
    {
      if i < |a| {
        assert (a + b)[i] == a[i];
      } else {
        assert (a + b)[i] == b[i - |a|];
      }
    }
  }

  /** The elements `keep` accepts, in order. */
  function Filter<T>(keep: T -> bool, xs: seq<T>): (ys: seq<T>)
    ensures |ys| <= |xs|
    ensures forall y :: y in ys ==> y in xs && keep(y)
    ensures forall i :: 0 <= i < |xs| && keep(xs[i]) ==> xs[i] in ys
  {
    if xs == [] then []
    else (if keep(xs[0]) then [xs[0]] else []) + Filter(keep, xs[1..])
  }

  /** The elements `keep` rejects, in order. */
  function Reject<T>(keep: T -> bool, xs: seq<T>): (ys: seq<T>)
    ensures |ys| <= |xs|
    ensures forall y :: y in ys ==> y in xs && !keep(y)
    ensures forall i :: 0 <= i < |xs| && !keep(xs[i]) ==> xs[i] in ys
  {
    if xs == [] then []
    else (if keep(xs[0]) then [] else [xs[0]]) + Reject(keep, xs[1..])
  }

  /** Filter and Reject split a sequence: every element lands in exactly one
      of the two, as often as it occurs. */
  lemma {:induction false} FilterRejectPartition<T>(keep: T -> bool, xs: seq<T>)
    ensures |Filter(keep, xs)| + |Reject(keep, xs)| == |xs|
    ensures multiset(Filter(keep, xs)) + multiset(Reject(keep, xs)) == multiset(xs)
  {
    if xs != [] {
      FilterRejectPartition(keep, xs[1..]);
      assert xs == [xs[0]] + xs[1..];
    }
  }

  lemma {:induction false} FilterSnoc<T>(keep: T -> bool, xs: seq<T>, x: T)
    ensures Filter(keep, xs + [x]) == Filter(keep, xs) + (if keep(x) then [x] else [])
  {
    if xs == [] {
      assert xs + [x] == [x];
    } else {
      var head := if keep(xs[0]) then [xs[0]] else [];
      assert (xs + [x])[0] == xs[0];
      assert (xs + [x])[1..] == xs[1..] + [x];
      FilterSnoc(keep, xs[1..], x);
      assert Filter(keep, xs + [x]) == head + Filter(keep, xs[1..] + [x]);
      assert head + (Filter(keep, xs[1..]) + (if keep(x) then [x] else []))
          == (head + Filter(keep, xs[1..])) + (if keep(x) then [x] else []);
    }
  }

  lemma {:induction false} RejectSnoc<T>(keep: T -> bool, xs: seq<T>, x: T)
    ensures Reject(keep, xs + [x]) == Reject(keep, xs) + (if keep(x) then [] else [x])
  {
    if xs == [] {
      assert xs + [x] == [x];
    } else {
      var head := if keep(xs[0]) then [] else [xs[0]];
      assert (xs + [x])[0] == xs[0];
      assert (xs + [x])[1..] == xs[1..] + [x];
      RejectSnoc(keep, xs[1..], x);
      assert Reject(keep, xs + [x]) == head + Reject(keep, xs[1..] + [x]);
      assert head + (Reject(keep, xs[1..]) + (if keep(x) then [] else [x]))
          == (head + Reject(keep, xs[1..])) + (if keep(x) then [] else [x]);
    }
  }

  /** Mapping by `f` then `g` is mapping by their composition `h`. */
  lemma MapCompose<T, U, V>(f: T -> U, g: U -> V, h: T -> V, xs: seq<T>)
    requires forall x :: h(x) == g(f(x))
    ensures Map(g, Map(f, xs)) == Map(h, xs)
  {
    forall i | 0 <= i < |xs| ensures Map(g, Map(f, xs))[i] == Map(h, xs)[i] {
      assert Map(f, xs)[i] == f(xs[i]);
    }
  }

  /** Filtering mapped elements is mapping the filtered ones, when the test
      reads through the map. */
  lemma {:induction false} FilterMap<T, U>(keep: U -> bool, g: T -> U, test: T -> bool, xs: seq<T>)
    requires forall x :: keep(g(x)) == test(x)
    ensures Filter(keep, Map(g, xs)) == Map(g, Filter(test, xs))
  {
    if xs != [] {
      var ys := Map(g, xs);
      assert ys[0] == g(xs[0]);
      assert ys[1..] == Map(g, xs[1..]);
      FilterMap(keep, g, test, xs[1..]);
      MapAppend(g, if test(xs[0]) then [xs[0]] else [], Filter(test, xs[1..]));
    }
  }

  lemma {:induction false} RejectMap<T, U>(keep: U -> bool, g: T -> U, test: T -> bool, xs: seq<T>)
    requires forall x :: keep(g(x)) == test(x)
    ensures Reject(keep, Map(g, xs)) == Map(g, Reject(test, xs))
  {
    if xs != [] {
      var ys := Map(g, xs);
      assert ys[0] == g(xs[0]);
      assert ys[1..] == Map(g, xs[1..]);
      RejectMap(keep, g, test, xs[1..]);
      MapAppend(g, if test(xs[0]) then [] else [xs[0]], Reject(test, xs[1..]));
    }
  }

  /** `f` applied to every element and the results concatenated, in order. */
  function FlatMap<T, U>(f: T -> seq<U>, xs: seq<T>): seq<U>
  {
    if xs == [] then [] else f(xs[0]) + FlatMap(f, xs[1..])
  }

  lemma {:induction false} FlatMapAppend<T, U>(f: T -> seq<U>, a: seq<T>, b: seq<T>)
    ensures FlatMap(f, a + b) == FlatMap(f, a) + FlatMap(f, b)
  {
    if a != [] {
      assert (a + b)[1..] == a[1..] + b;
      FlatMapAppend(f, a[1..], b);
    } else {
      assert a + b == b;
    }
  }

  /** The per-element function yielding exactly `f` of the element. */
  function One<T, U>(f: T -> U): T -> seq<U>
  {
    x => [f(x)]
  }

  /** Work that yields one result per element maps the sequence. */
  lemma {:induction false} FlatMapSingletons<T, U>(g: T -> seq<U>, h: T -> U, xs: seq<T>)
    requires forall i :: 0 <= i < |xs| ==> g(xs[i]) == [h(xs[i])]
    ensures FlatMap(g, xs) == Map(h, xs)
  {
    if xs != [] {
      assert forall i :: 0 <= i < |xs[1..]| ==> xs[1..][i] == xs[i + 1];
      FlatMapSingletons(g, h, xs[1..]);
    }
  }

  lemma FlatMapOne<T, U>(f: T -> U, xs: seq<T>)
    ensures FlatMap(One(f), xs) == Map(f, xs)
  {
    FlatMapSingletons(One(f), f, xs);
  }

  /** Work that yields one result for the elements `keep` accepts and nothing
      for the others maps the accepted elements, in order. */
  lemma {:induction false} FlatMapFilter<T, U>(g: T -> seq<U>, keep: T -> bool, h: T -> U, xs: seq<T>)
    requires forall i :: 0 <= i < |xs| ==> g(xs[i]) == if keep(xs[i]) then [h(xs[i])] else []
    ensures FlatMap(g, xs) == Map(h, Filter(keep, xs))
  {
    if xs != [] {
      assert forall i :: 0 <= i < |xs[1..]| ==> xs[1..][i] == xs[i + 1];
      FlatMapFilter(g, keep, h, xs[1..]);
      if keep(xs[0]) {
        MapAppend(h, [xs[0]], Filter(keep, xs[1..]));
      } else {
        assert Filter(keep, xs) == Filter(keep, xs[1..]);
      }
    }
  }

  /** The loop that appends `f` of every element to an initially empty
      slice. */
  method Collect<T, U>(f: T -> U, xs: seq<T>) returns (ys: seq<U>)
    ensures ys == Map(f, xs)
  {
    ys := [];
    for i := 0 to |xs|
      invariant ys == Map(f, xs[..i])
    {
      MapAppend(f, xs[..i], [xs[i]]);
      assert xs[..i + 1] == xs[..i] + [xs[i]];
      ys := ys + [f(xs[i])];
    }
    assert xs[..|xs|] == xs;
  }

  /** Concatenation of strings. */
  function Concat(parts: seq<string>): string
  {
    if parts == [] then "" else parts[0] + Concat(parts[1..])
  }

  lemma {:induction false} ConcatAppend(a: seq<string>, b: seq<string>)
    ensures Concat(a + b) == Concat(a) + Concat(b)
  {
    if a != [] {
      assert (a + b)[1..] == a[1..] + b;
      ConcatAppend(a[1..], b);
    } else {
      assert a + b == b;
    }
  }

  /** The elements separated by `sep` (Go's strings.Join). */
  function Join(xs: seq<string>, sep: string): string
  {
    if |xs| == 0 then ""
    else if |xs| == 1 then xs[0]
    else xs[0] + sep + Join(xs[1..], sep)
  }

  /** Go's `fmt.Sprintf("%v", xs)` of a string slice: the elements separated
      by single spaces between square brackets; a nil or empty slice is "[]". */
  function Bracketed(xs: seq<string>): string
  {
    "[" + Join(xs, " ") + "]"
  }

  /** Go's `fmt.Sprintf("%t", b)`. */
  function BoolText(b: bool): (s: string)
    ensures s == "true" <==> b
    ensures s == "false" <==> !b
  {
    if b then "true" else "false"
  }

  /** The pieces of `s` between occurrences of `c` (Go's strings.Split with a
      one-character separator); never empty. */
  function Split(s: string, c: char): (parts: seq<string>)
    ensures |parts| >= 1
  {
    if s == [] then [""]
    else
      var rest := Split(s[1..], c);
      if s[0] == c then [""] + rest else [[s[0]] + rest[0]] + rest[1..]
  }

  lemma {:induction false} SplitAfterPiece(x: string, c: char, rest: string)
    requires c !in x
    ensures Split(x + [c] + rest, c) == [x] + Split(rest, c)
  {
    if x == [] {
      assert x + [c] + rest == [c] + rest;
      assert ([c] + rest)[1..] == rest;
    } else {
      assert (x + [c] + rest)[1..] == x[1..] + [c] + rest;
      SplitAfterPiece(x[1..], c, rest);
      assert [x[0]] + x[1..] == x;
    }
  }

  lemma {:induction false} SplitPiece(x: string, c: char)
    requires c !in x
    ensures Split(x, c) == [x]
  {
    if x != [] {
      SplitPiece(x[1..], c);
      assert [x[0]] + x[1..] == x;
    }
  }

  /** Joining with a one-character separator that occurs in no element can be
      undone by splitting on it. */
  lemma {:induction false} SplitJoin(xs: seq<string>, c: char)
    requires xs != []
    requires forall x :: x in xs ==> c !in x
    ensures Split(Join(xs, [c]), c) == xs
  {
    if |xs| == 1 {
      SplitPiece(xs[0], c);
    } else {
      SplitJoin(xs[1..], c);
      SplitAfterPiece(xs[0], c, Join(xs[1..], [c]));
      assert [xs[0]] + xs[1..] == xs;
    }
  }

  /** Reading a `%v` rendering of a string slice back into its elements. */
  function Unbracket(s: string): Option<seq<string>>
  {
    if |s| < 2 || s[0] != '[' || s[|s| - 1] != ']' then None
    else if |s| == 2 then Some([])
    else Some(Split(s[1..|s| - 1], ' '))
  }

  /** The bracketed rendering loses nothing when no element holds a space
      (logins, slugs and `name:role` labels hold none); the only other
      ambiguity is a slice holding one empty string, which renders as "[]". */
  lemma BracketedRoundTrip(xs: seq<string>)
    requires xs != [""]
    requires forall x :: x in xs ==> ' ' !in x
    ensures Unbracket(Bracketed(xs)) == Some(xs)
  {
    var s := Bracketed(xs);
    assert s[1..|s| - 1] == Join(xs, " ");
    if xs != [] {
      if |xs| == 1 {
        assert Join(xs, " ") == xs[0] != "";
      } else {
        assert |Join(xs, " ")| > 0;
      }
      SplitJoin(xs, ' ');
    }
  }

  /** The decimal digit `d`. */
  function DigitChar(d: nat): (c: char)
    requires d < 10
    ensures '0' <= c <= '9'
  {
    (48 + d) as char
  }

  /** Go's `fmt.Sprintf("%d", n)` of an unsigned integer: its decimal digits,
      without leading zeros. */
  function NatToString(n: nat): (s: string)
    ensures |s| >= 1
    ensures forall i :: 0 <= i < |s| ==> '0' <= s[i] <= '9'
    decreases n
  {
    if n < 10 then [DigitChar(n)] else NatToString(n / 10) + [DigitChar(n % 10)]
  }

  /** The value of a string of decimal digits. */
  function DigitsValue(s: string): nat
    requires forall i :: 0 <= i < |s| ==> '0' <= s[i] <= '9'
  {
    if s == [] then 0 else 10 * DigitsValue(s[..|s| - 1]) + (s[|s| - 1] as int - 48)
  }

  /** The `%d` rendering of an id reads back as the same id. */
  lemma {:induction false} NatToStringRoundTrip(n: nat)
    ensures DigitsValue(NatToString(n)) == n
    decreases n
  {
    var s := NatToString(n);
    if n >= 10 {
      NatToStringRoundTrip(n / 10);
      assert s[..|s| - 1] == NatToString(n / 10);
    }
  }
}
