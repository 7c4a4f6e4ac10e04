/** Sorting by a string key, in the code-point order Python compares strings with. */
module Ordering {
  predicate Less(a: string, b: string) {
    if b == "" then false
    else if a == "" then true
    else a[0] < b[0] || (a[0] == b[0] && Less(a[1..], b[1..]))
  }

  /** The first difference decides, and where there is none the shorter text comes first. */
  ghost predicate Precedes(a: string, b: string, k: nat) {
    && k <= |a| && k < |b| && a[..k] == b[..k]
    && (k == |a| || a[k] < b[k])
  }

  lemma {:induction false} PrecedesIsLess(a: string, b: string, k: nat)
    requires Precedes(a, b, k)
    ensures Less(a, b)
  {
    if k > 0 {
      assert a[0] == a[..k][0] == b[..k][0] == b[0];
      assert a[1..][..k - 1] == a[..k][1..] && b[1..][..k - 1] == b[..k][1..];
      PrecedesIsLess(a[1..], b[1..], k - 1);
    }
  }

  lemma {:induction false} LessPrecedes(a: string, b: string) returns (k: nat)
    requires Less(a, b)
    ensures Precedes(a, b, k)
  {
    if a != "" && a[0] == b[0] {
      var below := LessPrecedes(a[1..], b[1..]);
      k := below + 1;
      assert a[..k] == [a[0]] + a[1..][..below] && b[..k] == [b[0]] + b[1..][..below];
    } else {
      k := 0;
    }
  }

  lemma LessExactly(a: string, b: string)
    ensures Less(a, b) <==> exists k :: Precedes(a, b, k)
  {
    if Less(a, b) {
      var k := LessPrecedes(a, b);
    } else {
      forall k | Precedes(a, b, k) ensures false {
        PrecedesIsLess(a, b, k);
      }
    }
  }

  lemma LessTransitive(a: string, b: string, c: string)
    requires Less(a, b) && Less(b, c)
    ensures Less(a, c)
  {}

  lemma LessIrreflexive(a: string)
    ensures !Less(a, a)
  {}

  lemma {:induction false} LessTotal(a: string, b: string)
    ensures a == b || Less(a, b) || Less(b, a)
  {
    if a != "" && b != "" && a[0] == b[0] {
      LessTotal(a[1..], b[1..]);
      assert a == [a[0]] + a[1..] && b == [b[0]] + b[1..];
    }
  }

  ghost predicate StrictlySorted<T>(s: seq<T>, key: T -> string) {
    forall i, j :: 0 <= i < j < |s| ==> Less(key(s[i]), key(s[j]))
  }

  ghost predicate DistinctKeys<T>(s: seq<T>, key: T -> string) {
    forall i, j :: 0 <= i < j < |s| ==> key(s[i]) != key(s[j])
  }

  function Insert<T>(x: T, s: seq<T>, key: T -> string): seq<T> {
    if s != [] && Less(key(s[0]), key(x)) then [s[0]] + Insert(x, s[1..], key) else [x] + s
  }

  /** A stable insertion sort: elements with equal keys keep their order. */
  function SortBy<T>(s: seq<T>, key: T -> string): seq<T> {
    if s == [] then [] else Insert(s[0], SortBy(s[1..], key), key)
  }

  lemma {:induction false} InsertElements<T>(x: T, s: seq<T>, key: T -> string)
    ensures multiset(Insert(x, s, key)) == multiset(s) + multiset{x}
  {
    if s != [] && Less(key(s[0]), key(x)) {
      InsertElements(x, s[1..], key);
      assert s == [s[0]] + s[1..];
    }
  }

  lemma {:induction false} SortElements<T>(s: seq<T>, key: T -> string)
    ensures multiset(SortBy(s, key)) == multiset(s)
  {
    if s != [] {
      SortElements(s[1..], key);
      InsertElements(s[0], SortBy(s[1..], key), key);
      assert s == [s[0]] + s[1..];
    }
  }

  lemma SameElement<T>(a: seq<T>, b: seq<T>, x: T)
    requires multiset(a) == multiset(b)
    ensures x in a <==> x in b
  {
    assert x in a <==> x in multiset(a);
    assert x in b <==> x in multiset(b);
  }

  /** Where the head of one list sits in a rearrangement of it, and what is left without it. */
  lemma FindHead<T>(a: seq<T>, b: seq<T>) returns (i: nat)
    requires a != [] && multiset(a) == multiset(b)
    ensures i < |b| && b[i] == a[0]
    ensures b == b[..i] + ([a[0]] + b[i + 1..])
    ensures multiset(a[1..]) == multiset(b[..i] + b[i + 1..])
  {
    SameElement(a, b, a[0]);
    i :| 0 <= i < |b| && b[i] == a[0];
    var left, right := b[..i], b[i + 1..];
    assert a == [a[0]] + a[1..];
    assert b == left + ([a[0]] + right);
    assert multiset(b) == multiset(left) + (multiset{a[0]} + multiset(right));
    assert multiset(a) == multiset{a[0]} + multiset(a[1..]);
    assert multiset(left + right) == multiset(left) + multiset(right);
    assert multiset(b) == multiset{a[0]} + multiset(left + right);
    assert multiset(a[1..]) == multiset(a) - multiset{a[0]};
    assert multiset(left + right) == multiset(b) - multiset{a[0]};
  }

  lemma {:induction false} InsertStrict<T>(x: T, s: seq<T>, key: T -> string)
    requires StrictlySorted(s, key)
    requires forall y :: y in s ==> key(y) != key(x)
    ensures StrictlySorted(Insert(x, s, key), key)
  {
    if s != [] {
      LessTotal(key(s[0]), key(x));
      if Less(key(s[0]), key(x)) {
        var rest := Insert(x, s[1..], key);
        InsertStrict(x, s[1..], key);
        InsertElements(x, s[1..], key);
        forall j | 0 <= j < |rest| ensures Less(key(s[0]), key(rest[j])) {
          assert rest[j] in multiset(rest);
          assert rest[j] == x || rest[j] in s[1..];
        }
      } else {
        forall j | 0 <= j < |s| ensures Less(key(x), key(s[j])) {
          if j > 0 {
            LessTransitive(key(x), key(s[0]), key(s[j]));
          }
        }
      }
    }
  }

  lemma AppendStrict<T>(s: seq<T>, x: T, key: T -> string)
    requires StrictlySorted(s, key)
    requires forall y :: y in s ==> Less(key(y), key(x))
    ensures StrictlySorted(s + [x], key)
  {
    var more := s + [x];
    forall i, j | 0 <= i < j < |more| ensures Less(key(more[i]), key(more[j])) {
      assert s[i] in s;
    }
  }

  /** Sorting elements whose keys differ puts them in strictly increasing order. */
  lemma {:induction false} SortStrict<T>(s: seq<T>, key: T -> string)
    requires DistinctKeys(s, key)
    ensures StrictlySorted(SortBy(s, key), key)
  {
    if s != [] {
      var rest := SortBy(s[1..], key);
      SortStrict(s[1..], key);
      SortElements(s[1..], key);
      forall y | y in rest ensures key(y) != key(s[0]) {
        SameElement(rest, s[1..], y);
      }
      InsertStrict(s[0], rest, key);
    }
  }

  /** A strictly increasing list is determined by its elements. */
  lemma {:induction false} StrictUnique<T>(a: seq<T>, b: seq<T>, key: T -> string)
    requires StrictlySorted(a, key) && StrictlySorted(b, key)
    requires forall x :: x in a <==> x in b
    ensures a == b
  {
    if a != [] {
      assert a[0] in b;
    }
    if b != [] {
      assert b[0] in a;
      HeadsAgree(a, b, key);
      NotInTail(a, key);
      NotInTail(b, key);
      forall x ensures x in a[1..] <==> x in b[1..] {
        assert x in a <==> x in b;
        assert x in a <==> x == a[0] || x in a[1..];
        assert x in b <==> x == b[0] || x in b[1..];
      }
      StrictUnique(a[1..], b[1..], key);
      assert a == [a[0]] + a[1..] && b == [b[0]] + b[1..];
    }
  }

  lemma NotInTail<T>(a: seq<T>, key: T -> string)
    requires a != [] && StrictlySorted(a, key)
    ensures a[0] !in a[1..]
  {
    LessIrreflexive(key(a[0]));
    forall i | 1 <= i < |a| ensures a[i] != a[0] {
      assert Less(key(a[0]), key(a[i]));
    }
  }

  lemma HeadsAgree<T>(a: seq<T>, b: seq<T>, key: T -> string)
    requires a != [] && b != []
    requires StrictlySorted(a, key) && StrictlySorted(b, key)
    requires forall x :: x in a <==> x in b
    ensures a[0] == b[0]
  {
    assert a[0] in b && b[0] in a;
    var i :| 0 <= i < |a| && a[i] == b[0];
    var j :| 0 <= j < |b| && b[j] == a[0];
    if i > 0 && j > 0 {
      LessTransitive(key(a[0]), key(b[0]), key(a[0]));
      LessIrreflexive(key(a[0]));
    }
  }

  /** Distinctness of keys only depends on the multiset of elements. */
  lemma DistinctPermuted<T>(a: seq<T>, b: seq<T>, key: T -> string)
    requires DistinctKeys(a, key) && multiset(a) == multiset(b)
    ensures DistinctKeys(b, key)
  {
    forall i, j | 0 <= i < j < |b| ensures key(b[i]) != key(b[j]) {
      if key(b[i]) == key(b[j]) {
        SameElement(a, b, b[i]);
        SameElement(a, b, b[j]);
        var p :| 0 <= p < |a| && a[p] == b[i];
        var q :| 0 <= q < |a| && a[q] == b[j];
        assert p == q;
        TwiceCounted(b, i, j);
        OnceCounted(a, p, key);
        assert false;
      }
    }
  }

  lemma TwiceCounted<T>(s: seq<T>, i: int, j: int)
    requires 0 <= i < j < |s| && s[i] == s[j]
    ensures multiset(s)[s[i]] >= 2
  {
    assert s == s[..i] + [s[i]] + s[i + 1..j] + [s[j]] + s[j + 1..];
  }

  lemma OnceCounted<T>(s: seq<T>, p: int, key: T -> string)
    requires 0 <= p < |s| && DistinctKeys(s, key)
    ensures multiset(s)[s[p]] == 1
  {
    assert s == s[..p] + [s[p]] + s[p + 1..];
    assert s[p] !in s[..p] && s[p] !in s[p + 1..];
    assert multiset(s[..p])[s[p]] == 0 && multiset(s[p + 1..])[s[p]] == 0;
  }

  function Same(x: string): string {
    x
  }

  /** The elements of a set in increasing order. */
  ghost function Listed(revs: set<string>): (list: seq<string>)
    ensures StrictlySorted(list, Same)
    ensures forall x :: x in list <==> x in revs
  {
    if revs == {} then []
    else
      var x :| x in revs;
      var rest := Listed(revs - {x});
      InsertStrict(x, rest, Same);
      InsertElements(x, rest, Same);
      InsertKeeps(x, rest);
      Insert(x, rest, Same)
  }

  lemma InsertKeeps(x: string, s: seq<string>)
    ensures forall y :: y in Insert(x, s, Same) <==> y == x || y in s
  {
    InsertElements(x, s, Same);
    forall y ensures y in Insert(x, s, Same) <==> y == x || y in s {
      assert y in Insert(x, s, Same) <==> y in multiset(Insert(x, s, Same));
      assert y in s <==> y in multiset(s);
    }
  }
}
