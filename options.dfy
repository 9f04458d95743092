/** The option list of the login-type selector and the suite's
    `toContainOptions` matcher.

    The selector shows the union of the fetched security types and the
    selected method, in the manner of underscore's `_.union`: every value
    once, in order of first appearance, so the fetched types come first.
 */
module Options {

  predicate NoDups(s: seq<string>) {
    forall i, j :: 0 <= i < j < |s| ==> s[i] != s[j]
  }

  /** `s` with every repeated value dropped, keeping first appearances. */
  function Dedup(s: seq<string>): (r: seq<string>)
    ensures NoDups(r)
    ensures forall x :: x in r <==> x in s
    ensures |r| <= |s|
    decreases |s|
  {
    if s == [] then []
    else
      var front := Dedup(s[..|s| - 1]);
      var x := s[|s| - 1];
      assert forall y :: y in s <==> y in s[..|s| - 1] || y == x by {
        assert s == s[..|s| - 1] + [x];
      }
      if x in front then front else front + [x]
  }

  /** `_.union(a, b)`. */
  function Union(a: seq<string>, b: seq<string>): seq<string> {
    Dedup(a + b)
  }

  /** A sequence without repetitions is left as it is. */
  lemma {:induction false} DedupOfDistinct(s: seq<string>)
    requires NoDups(s)
    ensures Dedup(s) == s
  {
    if s != [] {
      var init := s[..|s| - 1];
      assert NoDups(init);
      DedupOfDistinct(init);
      assert s[|s| - 1] !in init;
      assert s == init + [s[|s| - 1]];
    }
  }

  /** Appending one value: it is added at the end unless already present. */
  lemma DedupSnoc(s: seq<string>, x: string)
    ensures Dedup(s + [x]) == if x in s then Dedup(s) else Dedup(s) + [x]
  {
    assert (s + [x])[..|s + [x]| - 1] == s;
  }

  /** Order: for a list `a` without repeats, `_.union(a, b)` begins with `a`
      itself, so nothing of `b` can come before or between the values of `a`. */
  lemma {:induction false} UnionKeepsPrefix(a: seq<string>, b: seq<string>)
    requires NoDups(a)
    ensures |Union(a, b)| >= |a| && Union(a, b)[..|a|] == a
    decreases |b|
  {
    if b == [] {
      assert a + b == a;
      DedupOfDistinct(a);
    } else {
      var init, x := b[..|b| - 1], b[|b| - 1];
      UnionKeepsPrefix(a, init);
      assert a + b == (a + init) + [x];
      DedupSnoc(a + init, x);
      var u := Dedup(a + init);
      assert Dedup(a + b) == u || Dedup(a + b) == u + [x];
      assert (u + [x])[..|a|] == u[..|a|];
    }
  }

  /** The options shown for fetched `types` and selected value: the fetched
      types in their order, followed by the selected value exactly when it is not
      among them. */
  lemma {:induction false} UnionWithSelected(types: seq<string>, selected: string)
    ensures NoDups(types) ==>
      Union(types, [selected]) == if selected in types then types else types + [selected]
  {
    if NoDups(types) {
      DedupSnoc(types, selected);
      DedupOfDistinct(types);
    }
  }

  /** Every value of `a` and of `b` is offered exactly once, and nothing else. */
  lemma {:induction false} UnionOnce(a: seq<string>, b: seq<string>, x: string)
    ensures x in Union(a, b) <==> x in a || x in b
    ensures x in Union(a, b) ==> multiset(Union(a, b))[x] == 1
  {
    var u := Union(a, b);
    assert x in u <==> x in a + b;
    if x in u {
      DistinctCountsOne(u, x);
    }
  }

  lemma {:induction false} DistinctCountsOne(s: seq<string>, x: string)
    requires NoDups(s)
    requires x in s
    ensures multiset(s)[x] == 1
  {
    var k :| 0 <= k < |s| && s[k] == x;
    assert s == s[..k] + [x] + s[k + 1..];
    assert forall i :: 0 <= i < |s| && i != k ==> s[i] != x;
    assert x !in s[..k];
    assert x !in s[k + 1..];
  }

  /** What `toContainOptions(expected)` accepts: as many options as expected
      values, and each expected value carried by exactly one option. */
  predicate ContainsOptions(options: seq<string>, expected: seq<string>) {
    |options| == |expected| &&
    forall v :: v in expected ==> multiset(options)[v] == 1
  }

  /** The matcher: a length check, then a pass over the expected values that
      clears `isMatch` at the first value not found exactly once. */
  method ToContainOptions(options: seq<string>, expected: seq<string>) returns (isMatch: bool)
    ensures isMatch <==> ContainsOptions(options, expected)
  {
    if |options| != |expected| {
      return false;
    }
    isMatch := true;
    for i := 0 to |expected|
      invariant isMatch <==> forall j :: 0 <= j < i ==> multiset(options)[expected[j]] == 1
    {
      if isMatch && multiset(options)[expected[i]] != 1 {
        isMatch := false;
      }
    }
  }

  /** When the expected values are distinct, the matcher accepts exactly the
      rearrangements of them. */
  lemma ContainsOptionsDistinct(options: seq<string>, expected: seq<string>)
    requires NoDups(expected)
    ensures ContainsOptions(options, expected) <==> multiset(options) == multiset(expected)
  {
    if ContainsOptions(options, expected) {
      var m, e := multiset(options), multiset(expected);
      forall v ensures e[v] <= m[v] {
        if v in expected { DistinctCountsOne(expected, v); }
      }
      assert e <= m;
      assert |m - e| == |m| - |e|;
      assert m - e == multiset{};
      assert m == e;
    }
    if multiset(options) == multiset(expected) {
      assert |options| == |multiset(options)| == |multiset(expected)| == |expected|;
      forall v | v in expected ensures multiset(options)[v] == 1 {
        DistinctCountsOne(expected, v);
      }
    }
  }

  /** Dropping repeats shortens any sequence that has one. */
  lemma {:induction false} DedupShorter(s: seq<string>, i: nat, j: nat)
    requires i < j < |s| && s[i] == s[j]
    ensures |Dedup(s)| < |s|
  {
    var init := s[..|s| - 1];
    if j == |s| - 1 {
      assert s[i] == init[i];
    } else {
      DedupShorter(init, i, j);
    }
  }

  /** The matcher "doesn't account for duplicates": when an expected value is
      repeated, it accepts an option list holding any value `stranger` that
      was never expected. */
  lemma {:induction false} DuplicatesNotAccountedFor(expected: seq<string>, i: nat, j: nat, stranger: string)
    returns (options: seq<string>)
    requires i < j < |expected| && expected[i] == expected[j]
    requires stranger !in expected
    ensures stranger in options && ContainsOptions(options, expected)
  {
    var distinct := Dedup(expected);
    DedupShorter(expected, i, j);
    var padding := seq(|expected| - |distinct|, _ => stranger);
    options := distinct + padding;
    assert padding[0] == stranger;
    forall v | v in expected ensures multiset(options)[v] == 1 {
      DistinctCountsOne(distinct, v);
      assert v !in padding;
      assert multiset(options) == multiset(distinct) + multiset(padding);
    }
  }

  /** An accepted list whose every option is expected leaves no expected
      value repeated. */
  lemma NoStrangerNoRepeat(options: seq<string>, expected: seq<string>)
    requires ContainsOptions(options, expected)
    requires forall k :: 0 <= k < |options| ==> options[k] in expected
    ensures forall v :: multiset(expected)[v] <= 1
  {
    var m, e := multiset(options), multiset(expected);
    forall v ensures m[v] <= e[v] && m[v] <= 1 {
      if v !in expected {
        assert v !in options;
      }
    }
    assert m <= e;
    assert |e - m| == |e| - |m| == 0;
    assert e - m == multiset{};
    assert e == m;
  }

  /** Conversely, with a repeated expected value every list the matcher
      accepts holds a value that was never expected. */
  lemma RepeatedExpectedAdmitsStranger(options: seq<string>, expected: seq<string>, i: nat, j: nat)
    requires i < j < |expected| && expected[i] == expected[j]
    requires ContainsOptions(options, expected)
    ensures exists k :: 0 <= k < |options| && options[k] !in expected
  {
    var v := expected[j];
    assert multiset(expected)[v] >= 2 by {
      assert expected == expected[..j] + [v] + expected[j + 1..];
      assert expected[..j][i] == v;
    }
    if forall k :: 0 <= k < |options| ==> options[k] in expected {
      NoStrangerNoRepeat(options, expected);
      assert false;
    }
  }
}
