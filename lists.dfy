/** The array idioms the store uses on `acceptedBy` and `activeQuests`:
    `includes` + `push` to add once, and `filter` to drop one value. */
module Lists {

  predicate Distinct<T(==)>(s: seq<T>) {
    forall i, j :: 0 <= i < j < |s| ==> s[i] != s[j]
  }

  /** `if (!xs.includes(x)) xs.push(x)`: `x` is present afterwards, nothing already
      present moves, and no duplicate is ever introduced. */
  function AppendIfAbsent(s: seq<string>, x: string): (r: seq<string>)
    ensures forall y :: y in r <==> y in s || y == x
    ensures s <= r && |r| <= |s| + 1
    ensures |r| == |s| + 1 <==> x !in s
    ensures Distinct(s) ==> Distinct(r)
  {
    if x in s then s else s + [x]
  }

  /** Adding the same value twice is the same as adding it once. */
  lemma AppendIfAbsentIdempotent(s: seq<string>, x: string)
    ensures AppendIfAbsent(AppendIfAbsent(s, x), x) == AppendIfAbsent(s, x)
  {
  }

  /** `xs.filter(y => y !== x)`: every occurrence of `x` goes, every other element stays,
      in order. */
  function Without(s: seq<string>, x: string): (r: seq<string>)
    ensures forall y :: y in r <==> y in s && y != x
    ensures |r| <= |s|
    ensures x !in s ==> r == s
    ensures x in s ==> |r| < |s|
    ensures Distinct(s) ==> Distinct(r)
    decreases |s|
  {
    if s == [] then []
    else
      var rest := Without(s[1..], x);
      assert Distinct(s) ==> Distinct(s[1..]) && s[0] !in s[1..];
      if s[0] == x then rest else [s[0]] + rest
  }

  /** Adding a value and then filtering it out leaves what filtering alone leaves. */
  lemma {:induction false} WithoutAppendIfAbsent(s: seq<string>, x: string)
    ensures Without(AppendIfAbsent(s, x), x) == Without(s, x)
    decreases |s|
  {
    if x !in s {
      WithoutAppendLast(s, x);
    }
  }

  lemma {:induction false} WithoutAppendLast(s: seq<string>, x: string)
    ensures Without(s + [x], x) == Without(s, x)
    decreases |s|
  {
    if s == [] {
      assert Without([x], x) == Without([], x);
    } else {
      assert (s + [x])[1..] == s[1..] + [x];
      WithoutAppendLast(s[1..], x);
    }
  }
}
