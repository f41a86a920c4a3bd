/** Dose records as the dashboards hold them once fetched, and the list
    filter every dashboard view is built from. Calendar dates are integer
    day indices: equal `yyyy-MM-dd` strings are equal integers, and the
    previous day is the index minus one. */
module Records {

  /** The `status` column of a dose record. The dashboards use both `taken`
      and `completed`; each view tests only one of them. */
  datatype Status = Pending | Taken | Missed | Completed

  /** One row of the `medications` table. `time` is "" when no time is set. */
  datatype DoseRecord = DoseRecord(
    id: string,
    patientId: string,
    name: string,
    time: string,
    date: int,
    status: Status)

  datatype Option<T> = None | Some(value: T)

  /** A chosen proof photo; only its name matters to the dashboards. */
  datatype File = File(name: string)

  /** The coloured dots a calendar day may carry. */
  datatype Markers = Markers(green: bool, red: bool, yellow: bool)

  /** `a` is `b` with some elements deleted, the rest kept in order. */
  ghost predicate IsSubsequence<T>(a: seq<T>, b: seq<T>)
    decreases |b|
  {
    if |a| == 0 then true
    else if |b| == 0 then false
    else if a[0] == b[0] then IsSubsequence(a[1..], b[1..])
    else IsSubsequence(a, b[1..])
  }

  /** Array `filter`: the elements of `s` that satisfy `p`, in their order,
      each as often as it occurs in `s`. */
  function Filter<T(!new)>(s: seq<T>, p: T -> bool): (r: seq<T>)
    ensures forall x :: x in r <==> x in s && p(x)
    ensures |r| <= |s|
    ensures IsSubsequence(r, s)
    decreases |s|
  {
    if |s| == 0 then []
    else
      var rest := Filter(s[1..], p);
      assert s == [s[0]] + s[1..];
      if p(s[0]) then
        assert ([s[0]] + rest)[1..] == rest;
        [s[0]] + rest
      else
        assert |rest| > 0 ==> rest[0] != s[0] by {
          if |rest| > 0 { assert rest[0] in rest; }
        }
        rest
  }

  /** The filter keeps each element that satisfies `p` as often as `s` has
      it, and no other element. */
  lemma {:induction false} FilterMultiset<T(!new)>(s: seq<T>, p: T -> bool)
    ensures forall x :: multiset(Filter(s, p))[x] == if p(x) then multiset(s)[x] else 0
    decreases |s|
  {
    if |s| > 0 {
      FilterMultiset(s[1..], p);
      assert s == [s[0]] + s[1..];
    }
  }

  /** The elements of `s` that do not satisfy `p`. */
  function FilterNot<T(!new)>(s: seq<T>, p: T -> bool): (r: seq<T>)
    ensures forall x :: x in r <==> x in s && !p(x)
    ensures |r| <= |s|
    ensures IsSubsequence(r, s)
  {
    Filter(s, x => !p(x))
  }

  /** Filtering and selecting the complementary elements splits the list:
      every element lands in exactly one part and the lengths add up. */
  lemma FilterSplit<T(!new)>(s: seq<T>, p: T -> bool)
    ensures multiset(Filter(s, p)) + multiset(FilterNot(s, p)) == multiset(s)
    ensures |Filter(s, p)| + |FilterNot(s, p)| == |s|
  {
    var a, b := Filter(s, p), FilterNot(s, p);
    assert b == Filter(s, x => !p(x));
    FilterMultiset(s, p);
    FilterMultiset(s, x => !p(x));
    forall x ensures (multiset(a) + multiset(b))[x] == multiset(s)[x] {
    }
    assert multiset(a) + multiset(b) == multiset(s);
    calc {
      |a| + |b|;
      |multiset(a)| + |multiset(b)|;
      |multiset(a) + multiset(b)|;
      |multiset(s)|;
      |s|;
    }
  }

  /** Filtering commutes with concatenation. */
  lemma {:induction false} FilterAppend<T(!new)>(a: seq<T>, b: seq<T>, p: T -> bool)
    ensures Filter(a + b, p) == Filter(a, p) + Filter(b, p)
    decreases |a|
  {
    if |a| == 0 {
      assert a + b == b;
    } else {
      assert (a + b)[1..] == a[1..] + b;
      FilterAppend(a[1..], b, p);
    }
  }

  /** The filter keeps everything exactly when every element satisfies `p`. */
  lemma {:induction false} FilterKeepsAll<T(!new)>(s: seq<T>, p: T -> bool)
    ensures |Filter(s, p)| == |s| <==> forall x :: x in s ==> p(x)
    decreases |s|
  {
    if |s| > 0 {
      var rest := s[1..];
      FilterKeepsAll(rest, p);
      assert forall x :: x in s <==> x == s[0] || x in rest by {
        assert s == [s[0]] + rest;
      }
      if p(s[0]) {
        assert |Filter(s, p)| == 1 + |Filter(rest, p)|;
      } else {
        assert Filter(s, p) == Filter(rest, p);
      }
    }
  }

  /** The filter is empty exactly when no element satisfies `p`. */
  lemma FilterKeepsNone<T(!new)>(s: seq<T>, p: T -> bool)
    ensures |Filter(s, p)| == 0 <==> forall x :: x in s ==> !p(x)
  {
    if |Filter(s, p)| != 0 {
      assert Filter(s, p)[0] in Filter(s, p);
    }
  }
}
