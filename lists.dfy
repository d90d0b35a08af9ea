/**
 The three list idioms the session handlers are built from, stated over
 Dafny sequences: the filtering comprehension `[x for x in s if x != c]`,
 `list.index(x)` (first occurrence) and `list.pop(i)`.
 */
module Lists {

  /** No element occurs twice. */
  predicate Distinct<T(==)>(s: seq<T>) {
    forall i, j :: 0 <= i < j < |s| ==> s[i] != s[j]
  }

  /** `[x for x in s if x != c]`: `s` with every occurrence of `c` dropped, order kept. */
  function Without<T(==)>(s: seq<T>, c: T): (r: seq<T>)
    ensures forall i :: 0 <= i < |r| ==> r[i] in s && r[i] != c
    ensures forall i :: 0 <= i < |s| && s[i] != c ==> s[i] in r
    ensures |r| <= |s|
  {
    if s == [] then []
    else if s[0] == c then Without(s[1..], c)
    else [s[0]] + Without(s[1..], c)
  }

  /**
   The filter keeps every other element exactly as often as it occurs and
   drops every occurrence of `c`.
   */
  lemma {:induction false} WithoutMultiset<T>(s: seq<T>, c: T)
    ensures multiset(Without(s, c)) == multiset(s)[c := 0]
  {
    if s != [] {
      WithoutMultiset(s[1..], c);
      assert s == [s[0]] + s[1..];
    }
  }

  /** Dropping the head of a list without duplicates leaves one without duplicates. */
  lemma DistinctTail<T>(s: seq<T>)
    requires Distinct(s) && s != []
    ensures Distinct(s[1..])
  {
    forall i, j | 0 <= i < j < |s[1..]| ensures s[1..][i] != s[1..][j] {
      assert s[1..][i] == s[i + 1] && s[1..][j] == s[j + 1];
    }
  }

  /** Filtering a list without duplicates cannot create one. */
  lemma {:induction false} WithoutDistinct<T>(s: seq<T>, c: T)
    requires Distinct(s)
    ensures Distinct(Without(s, c))
  {
    if s != [] {
      DistinctTail(s);
      WithoutDistinct(s[1..], c);
      if s[0] != c {
        var rest := Without(s[1..], c);
        assert s[0] !in s[1..];
        assert s[0] !in rest;
        var r := [s[0]] + rest;
        forall i, j | 0 <= i < j < |r| ensures r[i] != r[j] {
          if i == 0 {
            assert r[j] == rest[j - 1];
          } else {
            assert r[i] == rest[i - 1] && r[j] == rest[j - 1];
          }
        }
      }
    }
  }

  /** Filtering twice by the same element is filtering once. */
  lemma {:induction false} WithoutIdempotent<T>(s: seq<T>, c: T)
    ensures Without(Without(s, c), c) == Without(s, c)
  {
    if s != [] {
      WithoutIdempotent(s[1..], c);
      if s[0] != c {
        var rest := Without(s[1..], c);
        assert ([s[0]] + rest)[0] == s[0];
        assert ([s[0]] + rest)[1..] == rest;
      }
    }
  }

  /** Filtering out an element the list does not hold changes nothing. */
  lemma {:induction false} WithoutAbsent<T>(s: seq<T>, c: T)
    requires c !in s
    ensures Without(s, c) == s
  {
    if s != [] {
      assert c !in s[1..];
      WithoutAbsent(s[1..], c);
      assert s == [s[0]] + s[1..];
    }
  }

  /** Filtering a concatenation filters each part. */
  lemma {:induction false} WithoutConcat<T>(a: seq<T>, b: seq<T>, c: T)
    ensures Without(a + b, c) == Without(a, c) + Without(b, c)
  {
    if a == [] {
      assert a + b == b;
    } else {
      assert (a + b)[0] == a[0] && (a + b)[1..] == a[1..] + b;
      WithoutConcat(a[1..], b, c);
    }
  }

  /**
   In a list without duplicates, filtering out the element at slot `k` is
   removing that one slot: the other elements keep their order.
   */
  lemma WithoutAt<T>(s: seq<T>, k: nat)
    requires Distinct(s) && k < |s|
    ensures Without(s, s[k]) == s[..k] + s[k + 1..]
    ensures |Without(s, s[k])| == |s| - 1
  {
    var c := s[k];
    var front, back := s[..k], s[k + 1..];
    assert c !in front && c !in back by {
      forall j | 0 <= j < k ensures front[j] != c { assert front[j] == s[j]; }
      forall j | 0 <= j < |back| ensures back[j] != c { assert back[j] == s[k + 1 + j]; }
    }
    calc {
      Without(s, c);
      { assert s == front + [c] + back; }
      Without(front + [c] + back, c);
      { WithoutConcat(front + [c], back, c); WithoutConcat(front, [c], c); }
      Without(front, c) + Without([c], c) + Without(back, c);
      { WithoutAbsent(front, c); WithoutAbsent(back, c); assert Without([c], c) == []; }
      front + back;
    }
  }

  /** `s.index(x)`: the slot of the first occurrence of `x`. */
  function IndexOf<T(==)>(s: seq<T>, x: T): (i: nat)
    requires x in s
    ensures i < |s| && s[i] == x
    ensures x !in s[..i]
  {
    if s[0] == x then 0
    else
      assert x in s[1..];
      1 + IndexOf(s[1..], x)
  }

  /** The first occurrence is the only slot with no earlier occurrence. */
  lemma {:induction false} IndexOfUnique<T>(s: seq<T>, x: T, i: nat)
    requires i < |s| && s[i] == x && x !in s[..i]
    ensures IndexOf(s, x) == i
  {
    if i > 0 {
      assert s[0] in s[..i];
      assert s[1..][i - 1] == x;
      assert s[1..][..i - 1] == s[1..i];
      assert x !in s[1..i] by {
        forall j | 0 <= j < i - 1 ensures s[1..i][j] != x {
          assert s[1..i][j] == s[..i][j + 1];
        }
      }
      IndexOfUnique(s[1..], x, i - 1);
    }
  }

  /**
   `if 0 <= idx < len(s): s.pop(idx)`: the slot at `idx` is removed and the
   elements after it move down by one; any other index leaves `s` alone.
   */
  function PopAt<T>(s: seq<T>, idx: int): (r: seq<T>)
    ensures 0 <= idx < |s| ==> |r| == |s| - 1
    ensures 0 <= idx < |s| ==> forall j :: 0 <= j < idx ==> r[j] == s[j]
    ensures 0 <= idx < |s| ==> forall j :: idx <= j < |r| ==> r[j] == s[j + 1]
    ensures 0 <= idx < |s| ==> multiset(r) + multiset{s[idx]} == multiset(s)
    ensures !(0 <= idx < |s|) ==> r == s
  {
    if 0 <= idx < |s| then
      assert s == s[..idx] + [s[idx]] + s[idx + 1..];
      s[..idx] + s[idx + 1..]
    else s
  }
}
