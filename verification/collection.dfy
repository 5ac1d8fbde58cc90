/**
  The array helpers of the library: `compactI`, which drops `null` and
  `undefined` cells (the same definition appears in `src/util.ts` and in
  `src/util/collection.ts`, and both are modelled by `CompactI`), and `sum`,
  a `reduce` without a seed.
 */
module Collection {
  import opened Common

  /** `arr.filter(it => it !== undefined && it !== null)`; `None` stands for
      both `null` and `undefined`, and every `Some` cell is kept, whatever
      its value (so JavaScript's falsy `0`, `''` and `false` survive). */
  function CompactI<T>(arr: seq<Option<T>>): (r: seq<T>)
    ensures |r| <= |arr|
    ensures forall i :: 0 <= i < |r| ==> Some(r[i]) in arr
    ensures forall i :: 0 <= i < |arr| && arr[i].Some? ==> arr[i].value in r
  {
    if |arr| == 0 then []
    else match arr[0]
      case None => CompactI(arr[1..])
      case Some(v) => [v] + CompactI(arr[1..])
  }

  /** The cells of a sequence with nothing missing. */
  function Present<T>(s: seq<T>): (r: seq<Option<T>>)
    ensures |r| == |s|
    ensures forall i :: 0 <= i < |s| ==> r[i] == Some(s[i])
  {
    if |s| == 0 then [] else [Some(s[0])] + Present(s[1..])
  }

  /** Compaction distributes over concatenation, so the kept elements keep
      their relative order. */
  lemma {:induction false} CompactIAppend<T>(a: seq<Option<T>>, b: seq<Option<T>>)
    ensures CompactI(a + b) == CompactI(a) + CompactI(b)
    decreases |a|
  {
    if |a| == 0 {
      assert a + b == b;
    } else {
      assert (a + b)[0] == a[0];
      assert (a + b)[1..] == a[1..] + b;
      CompactIAppend(a[1..], b);
    }
  }

  /** A sequence without missing cells comes back unchanged. */
  lemma {:induction false} CompactIPresent<T>(s: seq<T>)
    ensures CompactI(Present(s)) == s
    decreases |s|
  {
    if |s| > 0 {
      assert Present(s)[1..] == Present(s[1..]);
      CompactIPresent(s[1..]);
    }
  }

  /** Compacting twice is compacting once. */
  lemma CompactIIdempotent<T>(arr: seq<Option<T>>)
    ensures CompactI(Present(CompactI(arr))) == CompactI(arr)
  {
    CompactIPresent(CompactI(arr));
  }

  /** Every kept value appears exactly as often as it was present. */
  lemma {:induction false} CompactIMultiplicity<T>(arr: seq<Option<T>>, v: T)
    ensures multiset(CompactI(arr))[v] == multiset(arr)[Some(v)]
    decreases |arr|
  {
    if |arr| > 0 {
      assert arr == [arr[0]] + arr[1..];
      CompactIMultiplicity(arr[1..], v);
    }
  }

  /** `arr.reduce((total, cur) => total + cur)`: a left fold seeded with the
      first element; an empty array makes `reduce` throw a `TypeError`. */
  function Sum(arr: seq<int>): (r: Result<int>)
    ensures r.Throw? <==> |arr| == 0
    ensures r.Throw? ==> r.error == TypeError
  {
    if |arr| == 0 then Throw(TypeError) else Ok(FoldLeft(arr[0], arr[1..]))
  }

  function FoldLeft(total: int, rest: seq<int>): int
    decreases |rest|
  {
    if |rest| == 0 then total else FoldLeft(total + rest[0], rest[1..])
  }

  /** The arithmetic total, as an independent reference for `Sum`. */
  function Total(s: seq<int>): int
    decreases |s|
  {
    if |s| == 0 then 0 else s[0] + Total(s[1..])
  }

  lemma {:induction false} FoldLeftTotal(total: int, rest: seq<int>)
    ensures FoldLeft(total, rest) == total + Total(rest)
    decreases |rest|
  {
    if |rest| > 0 {
      FoldLeftTotal(total + rest[0], rest[1..]);
    }
  }

  lemma {:induction false} TotalAppend(a: seq<int>, b: seq<int>)
    ensures Total(a + b) == Total(a) + Total(b)
    decreases |a|
  {
    if |a| == 0 {
      assert a + b == b;
    } else {
      assert (a + b)[1..] == a[1..] + b;
      TotalAppend(a[1..], b);
    }
  }

  /** A non-empty array sums to its arithmetic total. */
  lemma SumIsTotal(arr: seq<int>)
    requires |arr| > 0
    ensures Sum(arr) == Ok(Total(arr))
  {
    FoldLeftTotal(arr[0], arr[1..]);
  }

  /** `sum([x]) = x`, and the sum of a concatenation of two non-empty arrays
      is the sum of their sums. */
  lemma SumAppend(a: seq<int>, b: seq<int>)
    requires |a| > 0 && |b| > 0
    ensures Sum([a[0]]) == Ok(a[0])
    ensures Sum(a + b) == Ok(Sum(a).value + Sum(b).value)
  {
    SumIsTotal(a);
    SumIsTotal(b);
    SumIsTotal(a + b);
    TotalAppend(a, b);
  }
}
