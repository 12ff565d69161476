/** The lexicographic order on strings, sorting by it, and the separator-terminated concatenation of
    fields that is fed to a hash. */
module StringOrder {

  predicate AtMost(a: string, b: string) {
    a == [] || (b != [] && (a[0] < b[0] || (a[0] == b[0] && AtMost(a[1..], b[1..]))))
  }

  lemma {:induction false} AtMostTotal(a: string, b: string)
    ensures AtMost(a, b) || AtMost(b, a)
    ensures AtMost(a, b) && AtMost(b, a) ==> a == b
  {
    if a != [] && b != [] && a[0] == b[0] {
      AtMostTotal(a[1..], b[1..]);
      assert a == [a[0]] + a[1..] && b == [b[0]] + b[1..];
    }
  }

  lemma {:induction false} AtMostTransitive(a: string, b: string, c: string)
    requires AtMost(a, b) && AtMost(b, c)
    ensures AtMost(a, c)
  {
    if a != [] && a[0] == b[0] && b[0] == c[0] {
      AtMostTransitive(a[1..], b[1..], c[1..]);
    }
  }

  /** The texts agree up to k, where a ends or has the smaller character. */
  ghost predicate SmallerFrom(a: string, b: string, k: nat) {
    k <= |a| && k < |b| && a[..k] == b[..k] && (k == |a| || a[k] < b[k])
  }

  lemma SmallerLater(a: string, b: string, k: nat, next: nat)
    requires a != "" && b != "" && a[0] == b[0] && next == k + 1
    ensures SmallerFrom(a, b, next) <==> SmallerFrom(a[1..], b[1..], k)
  {
    if SmallerFrom(a, b, next) {
      assert a[1..][..k] == a[..next][1..] && b[1..][..k] == b[..next][1..];
    }
    if SmallerFrom(a[1..], b[1..], k) {
      assert a[..next] == [a[0]] + a[1..][..k] && b[..next] == [b[0]] + b[1..][..k];
    }
  }

  lemma SameHeads(a: string, b: string, k: nat)
    requires a != "" && SmallerFrom(a, b, k)
    ensures k == 0 || a[0] == b[0]
    ensures a != b
  {
    assert k > 0 ==> a[..k][0] == b[..k][0];
  }

  /** The order is decided by the first difference. */
  lemma {:induction false} AtMostIff(a: string, b: string)
    ensures AtMost(a, b) <==> a == b || exists k :: SmallerFrom(a, b, k)
  {
    if a == "" || b == "" {
      if a == "" && b != "" { assert SmallerFrom(a, b, 0); }
    } else if a[0] == b[0] {
      AtMostIff(a[1..], b[1..]);
      assert a == [a[0]] + a[1..] && b == [b[0]] + b[1..];
      if k: nat :| SmallerFrom(a[1..], b[1..], k) {
        SmallerLater(a, b, k, k + 1);
      }
      if k: nat :| SmallerFrom(a, b, k) {
        assert k > 0;
        SmallerLater(a, b, k - 1, k);
      }
    } else if a[0] < b[0] {
      assert SmallerFrom(a, b, 0);
    } else if k: nat :| SmallerFrom(a, b, k) {
      SameHeads(a, b, k);
    }
  }

  // ---- Sorting ----

  predicate Sorted(s: seq<string>) {
    forall i, j :: 0 <= i < j < |s| ==> AtMost(s[i], s[j])
  }

  function InsertSorted(x: string, s: seq<string>): seq<string> {
    if s == [] || AtMost(x, s[0]) then [x] + s else [s[0]] + InsertSorted(x, s[1..])
  }

  function Sort(s: seq<string>): seq<string> {
    if s == [] then [] else InsertSorted(s[0], Sort(s[1..]))
  }

  lemma {:induction false} InsertSortedCounts(x: string, s: seq<string>)
    ensures multiset(InsertSorted(x, s)) == multiset(s) + multiset{x}
  {
    if s != [] && !AtMost(x, s[0]) {
      InsertSortedCounts(x, s[1..]);
      assert s == [s[0]] + s[1..];
    }
  }

  lemma PrependSmallest(x: string, s: seq<string>)
    requires Sorted(s) && forall y :: y in s ==> AtMost(x, y)
    ensures Sorted([x] + s)
  {
  }

  lemma {:induction false} InsertSortedIsSorted(x: string, s: seq<string>)
    requires Sorted(s)
    ensures Sorted(InsertSorted(x, s))
  {
    if s != [] {
      AtMostTotal(x, s[0]);
      if AtMost(x, s[0]) {
        forall y | y in s ensures AtMost(x, y) {
          var j :| 0 <= j < |s| && s[j] == y;
          if j > 0 { AtMostTransitive(x, s[0], s[j]); }
        }
        PrependSmallest(x, s);
      } else {
        InsertSortedIsSorted(x, s[1..]);
        InsertSortedCounts(x, s[1..]);
        var rest := InsertSorted(x, s[1..]);
        forall y | y in rest ensures AtMost(s[0], y) {
          assert y in multiset(rest);
          assert y == x || y in s[1..];
        }
        PrependSmallest(s[0], rest);
      }
    }
  }

  lemma {:induction false} SortIsSorted(s: seq<string>)
    ensures Sorted(Sort(s)) && multiset(Sort(s)) == multiset(s)
  {
    if s != [] {
      SortIsSorted(s[1..]);
      InsertSortedIsSorted(s[0], Sort(s[1..]));
      InsertSortedCounts(s[0], Sort(s[1..]));
      assert s == [s[0]] + s[1..];
    }
  }

  lemma SortedHeadsEqual(a: seq<string>, b: seq<string>)
    requires Sorted(a) && Sorted(b) && multiset(a) == multiset(b) && a != [] && b != []
    ensures a[0] == b[0]
  {
    assert a[0] in multiset(a) && b[0] in multiset(b);
    assert a[0] in b && b[0] in a;
    AtMostTotal(a[0], b[0]);
    AtMostTotal(a[0], a[0]);
  }

  lemma TailMultiset(a: seq<string>)
    requires a != []
    ensures multiset(a[1..]) == multiset(a) - multiset{a[0]}
  {
    assert a == [a[0]] + a[1..];
  }

  /** There is one sorted arrangement of a multiset. */
  lemma {:induction false} SortedIsUnique(a: seq<string>, b: seq<string>)
    requires Sorted(a) && Sorted(b) && multiset(a) == multiset(b)
    ensures a == b
  {
    assert |multiset(a)| == |a| && |multiset(b)| == |b|;
    if a != [] {
      SortedHeadsEqual(a, b);
      TailMultiset(a);
      TailMultiset(b);
      SortedIsUnique(a[1..], b[1..]);
    }
  }

  /** Sorting forgets exactly the order. */
  lemma SameSortIff(a: seq<string>, b: seq<string>)
    ensures Sort(a) == Sort(b) <==> multiset(a) == multiset(b)
  {
    SortIsSorted(a);
    SortIsSorted(b);
    if multiset(a) == multiset(b) {
      SortedIsUnique(Sort(a), Sort(b));
    }
  }

  // ---- Fields ----

  predicate Lacks(s: string, c: char) {
    c !in s
  }

  /** Every field followed by a separator. */
  function Join(fields: seq<string>): string {
    if fields == [] then "" else fields[0] + "|" + Join(fields[1..])
  }

  lemma {:induction false} JoinAppend(a: seq<string>, x: string)
    ensures Join(a + [x]) == Join(a) + x + "|"
  {
    if a == [] {
      assert ([] + [x])[1..] == [];
    } else {
      assert (a + [x])[0] == a[0] && (a + [x])[1..] == a[1..] + [x];
      JoinAppend(a[1..], x);
    }
  }

  lemma FirstFieldEqual(x: string, r: string, y: string, s: string)
    requires Lacks(x, '|') && Lacks(y, '|') && x + "|" + r == y + "|" + s
    ensures x == y && r == s
  {
    var whole := x + "|" + r;
    assert whole == y + "|" + s;
    assert forall i :: 0 <= i < |x| ==> whole[i] == x[i] && x[i] in x;
    assert forall i :: 0 <= i < |y| ==> whole[i] == y[i] && y[i] in y;
    assert whole[|x|] == '|' && whole[|y|] == '|';
    assert |x| == |y|;
    assert x == whole[..|x|] && y == whole[..|y|];
    assert r == whole[|x| + 1..] && s == whole[|y| + 1..];
  }

  /** Fields without separators can be read back from their concatenation. */
  lemma {:induction false} JoinInjective(a: seq<string>, b: seq<string>)
    requires forall f :: f in a || f in b ==> Lacks(f, '|')
    requires Join(a) == Join(b)
    ensures a == b
  {
    if a == [] || b == [] {
    } else {
      FirstFieldEqual(a[0], Join(a[1..]), b[0], Join(b[1..]));
      JoinInjective(a[1..], b[1..]);
      assert a == [a[0]] + a[1..] && b == [b[0]] + b[1..];
    }
  }
}
