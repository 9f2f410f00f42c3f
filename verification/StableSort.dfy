/** Stable sorting by a key, largest key first: what sort.SliceStable does for the handler
    list, and the order the slow log keeps by inserting one entry at a time. */
module StableSort {

  ghost predicate SortedDesc<T(!new)>(xs: seq<T>, key: T -> int) {
    forall i, j | 0 <= i < j < |xs| :: key(xs[i]) >= key(xs[j])
  }

  /** The elements that satisfy `keep`, in their order. */
  function Select<T(!new)>(xs: seq<T>, keep: T -> bool): seq<T> {
    if xs == [] then []
    else (if keep(xs[0]) then [xs[0]] else []) + Select(xs[1..], keep)
  }

  function HasKey<T(!new)>(key: T -> int, k: int): T -> bool {
    (x: T) => key(x) == k
  }

  /** `ys` is sorted and holds, for every key, the elements of `xs` with that key in their order. */
  ghost predicate IsStableSort<T(!new)>(ys: seq<T>, xs: seq<T>, key: T -> int) {
    && SortedDesc(ys, key)
    && forall k :: Select(ys, HasKey(key, k)) == Select(xs, HasKey(key, k))
  }

  /** Puts `e` before the first element with a strictly smaller key. */
  function Insert<T(!new)>(e: T, xs: seq<T>, key: T -> int): seq<T> {
    if xs == [] || key(xs[0]) < key(e) then [e] + xs
    else [xs[0]] + Insert(e, xs[1..], key)
  }

  function Sort<T(!new)>(xs: seq<T>, key: T -> int): (ys: seq<T>) {
    if xs == [] then [] else Insert(xs[|xs| - 1], Sort(xs[..|xs| - 1], key), key)
  }

  function Take<T(!new)>(xs: seq<T>, n: nat): seq<T> {
    if |xs| <= n then xs else xs[..n]
  }

  lemma SortedCons<T(!new)>(x: T, xs: seq<T>, key: T -> int)
    requires SortedDesc(xs, key)
    requires forall y | y in xs :: key(x) >= key(y)
    ensures SortedDesc([x] + xs, key)
  {
    var all := [x] + xs;
    forall i, j | 0 <= i < j < |all|
      ensures key(all[i]) >= key(all[j])
    {
      assert all[j] == xs[j - 1] && xs[j - 1] in xs;
      assert i > 0 ==> all[i] == xs[i - 1];
    }
  }

  lemma SortedTail<T(!new)>(xs: seq<T>, key: T -> int)
    requires SortedDesc(xs, key) && xs != []
    ensures SortedDesc(xs[1..], key)
    ensures forall y | y in xs :: key(xs[0]) >= key(y)
  {
    forall y | y in xs
      ensures key(xs[0]) >= key(y)
    {
      var i :| 0 <= i < |xs| && xs[i] == y;
      assert i > 0 ==> key(xs[0]) >= key(xs[i]);
    }
  }

  // ---- selection ----

  lemma {:induction false} SelectAppend<T(!new)>(xs: seq<T>, ys: seq<T>, keep: T -> bool)
    ensures Select(xs + ys, keep) == Select(xs, keep) + Select(ys, keep)
  {
    if xs == [] {
      assert xs + ys == ys;
    } else {
      assert (xs + ys)[1..] == xs[1..] + ys && (xs + ys)[0] == xs[0];
      SelectAppend(xs[1..], ys, keep);
      var first, a, b := if keep(xs[0]) then [xs[0]] else [], Select(xs[1..], keep), Select(ys, keep);
      assert first + (a + b) == (first + a) + b;
    }
  }

  lemma {:induction false} SelectMembers<T(!new)>(xs: seq<T>, keep: T -> bool)
    ensures forall x :: x in Select(xs, keep) <==> x in xs && keep(x)
  {
    if xs != [] {
      SelectMembers(xs[1..], keep);
      assert xs == [xs[0]] + xs[1..];
    }
  }

  lemma {:induction false} SelectAll<T(!new)>(xs: seq<T>, keep: T -> bool)
    requires forall x | x in xs :: keep(x)
    ensures Select(xs, keep) == xs
  {
    if xs != [] {
      SelectAll(xs[1..], keep);
    }
  }

  lemma {:induction false} SelectNone<T(!new)>(xs: seq<T>, keep: T -> bool)
    requires forall x | x in xs :: !keep(x)
    ensures Select(xs, keep) == []
  {
    if xs != [] {
      SelectNone(xs[1..], keep);
    }
  }

  lemma {:induction false} SelectSorted<T(!new)>(xs: seq<T>, keep: T -> bool, key: T -> int)
    requires SortedDesc(xs, key)
    ensures SortedDesc(Select(xs, keep), key)
  {
    if xs != [] {
      SortedTail(xs, key);
      SelectSorted(xs[1..], keep, key);
      SelectMembers(xs[1..], keep);
      SortedCons(xs[0], Select(xs[1..], keep), key);
    }
  }

  // ---- insertion ----

  lemma {:induction false} InsertMembers<T(!new)>(e: T, xs: seq<T>, key: T -> int)
    ensures multiset(Insert(e, xs, key)) == multiset(xs) + multiset{e}
    ensures forall x :: x in Insert(e, xs, key) <==> x == e || x in xs
  {
    if xs == [] || key(xs[0]) < key(e) {
    } else {
      InsertMembers(e, xs[1..], key);
      assert xs == [xs[0]] + xs[1..];
    }
  }

  lemma {:induction false} InsertSorted<T(!new)>(e: T, xs: seq<T>, key: T -> int)
    requires SortedDesc(xs, key)
    ensures SortedDesc(Insert(e, xs, key), key)
  {
    if xs == [] || key(xs[0]) < key(e) {
      if xs != [] {
        SortedTail(xs, key);
      }
      SortedCons(e, xs, key);
    } else {
      SortedTail(xs, key);
      InsertSorted(e, xs[1..], key);
      InsertMembers(e, xs[1..], key);
      SortedCons(xs[0], Insert(e, xs[1..], key), key);
    }
  }

  /** Inserting and selecting commute on a sorted list. */
  lemma {:induction false} SelectInsert<T(!new)>(e: T, xs: seq<T>, keep: T -> bool, key: T -> int)
    requires SortedDesc(xs, key)
    ensures Select(Insert(e, xs, key), keep)
         == if keep(e) then Insert(e, Select(xs, keep), key) else Select(xs, keep)
  {
    if xs == [] || key(xs[0]) < key(e) {
      SelectMembers(xs, keep);
      if xs != [] {
        SortedTail(xs, key);
      }
      assert ([e] + xs)[1..] == xs;
      var s := Select(xs, keep);
      assert s != [] ==> s[0] in s && s[0] in xs;
    } else {
      SortedTail(xs, key);
      SelectInsert(e, xs[1..], keep, key);
      var rest := Insert(e, xs[1..], key);
      var s := Select(xs[1..], keep);
      assert Insert(e, xs, key) == [xs[0]] + rest && ([xs[0]] + rest)[1..] == rest;
      assert ([xs[0]] + s)[1..] == s;
      assert Select(xs, keep) == if keep(xs[0]) then [xs[0]] + s else s;
    }
  }

  /** Only the first n places of a list decide the first n places after an insertion. */
  lemma {:induction false} TakeInsert<T(!new)>(e: T, xs: seq<T>, key: T -> int, n: nat)
    ensures Take(Insert(e, xs, key), n) == Take(Insert(e, Take(xs, n), key), n)
  {
    if xs == [] || |xs| <= n || n == 0 {
    } else if key(xs[0]) < key(e) {
    } else {
      var full, cut := Insert(e, xs[1..], key), Insert(e, Take(xs[1..], n - 1), key);
      TakeInsert(e, xs[1..], key, n - 1);
      InsertLength(e, xs[1..], key);
      InsertLength(e, Take(xs[1..], n - 1), key);
      TakeCons(xs[0], xs[1..], n);
      TakeCons(xs[0], full, n);
      TakeCons(xs[0], cut, n);
      assert [xs[0]] + xs[1..] == xs;
      assert Take(xs, n)[1..] == Take(xs[1..], n - 1);
    }
  }

  lemma TakeCons<T(!new)>(x: T, xs: seq<T>, n: nat)
    requires n > 0
    ensures Take([x] + xs, n) == [x] + Take(xs, n - 1)
  {
  }

  lemma {:induction false} InsertLength<T(!new)>(e: T, xs: seq<T>, key: T -> int)
    ensures |Insert(e, xs, key)| == |xs| + 1
  {
    if xs == [] || key(xs[0]) < key(e) {
    } else {
      InsertLength(e, xs[1..], key);
    }
  }

  // ---- sorting ----

  lemma {:induction false} SortMembers<T(!new)>(xs: seq<T>, key: T -> int)
    ensures multiset(Sort(xs, key)) == multiset(xs)
    ensures |Sort(xs, key)| == |xs|
    ensures forall x :: x in Sort(xs, key) <==> x in xs
  {
    if xs != [] {
      var front, e := xs[..|xs| - 1], xs[|xs| - 1];
      assert xs == front + [e];
      SortMembers(front, key);
      InsertMembers(e, Sort(front, key), key);
    }
    assert |multiset(Sort(xs, key))| == |multiset(xs)|;
  }

  lemma {:induction false} SortSorted<T(!new)>(xs: seq<T>, key: T -> int)
    ensures SortedDesc(Sort(xs, key), key)
  {
    if xs != [] {
      SortSorted(xs[..|xs| - 1], key);
      InsertSorted(xs[|xs| - 1], Sort(xs[..|xs| - 1], key), key);
    }
  }

  lemma SortLast<T(!new)>(xs: seq<T>, e: T, key: T -> int)
    ensures Sort(xs + [e], key) == Insert(e, Sort(xs, key), key)
  {
    assert (xs + [e])[..|xs|] == xs;
  }

  lemma SelectLast<T(!new)>(xs: seq<T>, keep: T -> bool)
    requires xs != []
    ensures Select(xs, keep)
         == Select(xs[..|xs| - 1], keep) + if keep(xs[|xs| - 1]) then [xs[|xs| - 1]] else []
  {
    var front, e := xs[..|xs| - 1], xs[|xs| - 1];
    assert xs == front + [e];
    SelectAppend(front, [e], keep);
    assert [e][1..] == [];
  }

  /** Sorting and selecting commute. */
  lemma {:induction false} SelectSort<T(!new)>(xs: seq<T>, keep: T -> bool, key: T -> int)
    ensures Select(Sort(xs, key), keep) == Sort(Select(xs, keep), key)
  {
    if xs != [] {
      var front, e := xs[..|xs| - 1], xs[|xs| - 1];
      SelectSort(front, keep, key);
      SortSorted(front, key);
      SelectInsert(e, Sort(front, key), keep, key);
      SelectLast(xs, keep);
      SortLast(Select(front, keep), e, key);
      assert Select(front, keep) + [] == Select(front, keep);
    }
  }

  lemma {:induction false} InsertLast<T(!new)>(e: T, xs: seq<T>, key: T -> int)
    requires forall x | x in xs :: key(x) >= key(e)
    ensures Insert(e, xs, key) == xs + [e]
  {
    if xs != [] {
      InsertLast(e, xs[1..], key);
    }
  }

  /** The place a scan for the first smaller key finds is the place `Insert` uses. */
  lemma {:induction false} InsertAt<T(!new)>(e: T, xs: seq<T>, i: nat, key: T -> int)
    requires i < |xs| && key(xs[i]) < key(e)
    requires forall j | 0 <= j < i :: key(xs[j]) >= key(e)
    ensures Insert(e, xs, key) == xs[..i] + [e] + xs[i..]
  {
    if i > 0 {
      assert key(xs[0]) >= key(e);
      InsertAt(e, xs[1..], i - 1, key);
      assert xs[1..][..i - 1] == xs[1..i] && xs[1..][i - 1..] == xs[i..];
    }
  }

  lemma {:induction false} SortOfSorted<T(!new)>(xs: seq<T>, key: T -> int)
    requires SortedDesc(xs, key)
    ensures Sort(xs, key) == xs
  {
    if xs != [] {
      SortOfSorted(xs[..|xs| - 1], key);
      InsertLast(xs[|xs| - 1], xs[..|xs| - 1], key);
    }
  }

  /** The head of a sorted list is the head of the elements that share its key. */
  lemma HeadOfItsKey<T(!new)>(xs: seq<T>, key: T -> int)
    requires xs != []
    ensures Select(xs, HasKey(key, key(xs[0]))) == [xs[0]] + Select(xs[1..], HasKey(key, key(xs[0])))
  {
  }

  /** A stable sort is unique. */
  lemma {:induction false} StableSortUnique<T(!new)>(ys: seq<T>, zs: seq<T>, key: T -> int)
    requires SortedDesc(ys, key) && SortedDesc(zs, key)
    requires forall k :: Select(ys, HasKey(key, k)) == Select(zs, HasKey(key, k))
    ensures ys == zs
  {
    if ys == [] || zs == [] {
      if ys != [] {
        HeadOfItsKey(ys, key);
      }
      if zs != [] {
        HeadOfItsKey(zs, key);
      }
    } else {
      HeadOfItsKey(ys, key);
      HeadOfItsKey(zs, key);
      SelectMembers(zs, HasKey(key, key(ys[0])));
      SelectMembers(ys, HasKey(key, key(zs[0])));
      assert ys[0] in Select(zs, HasKey(key, key(ys[0])));
      assert zs[0] in Select(ys, HasKey(key, key(zs[0])));
      assert key(ys[0]) == key(zs[0]);
      assert ys[0] == Select(ys, HasKey(key, key(ys[0])))[0];
      assert zs[0] == Select(zs, HasKey(key, key(zs[0])))[0];
      forall k
        ensures Select(ys[1..], HasKey(key, k)) == Select(zs[1..], HasKey(key, k))
      {
        var h := if key(ys[0]) == k then [ys[0]] else [];
        assert Select(ys, HasKey(key, k)) == h + Select(ys[1..], HasKey(key, k));
        assert Select(zs, HasKey(key, k)) == h + Select(zs[1..], HasKey(key, k));
        assert (h + Select(ys[1..], HasKey(key, k)))[|h|..] == Select(ys[1..], HasKey(key, k));
        assert (h + Select(zs[1..], HasKey(key, k)))[|h|..] == Select(zs[1..], HasKey(key, k));
      }
      StableSortUnique(ys[1..], zs[1..], key);
    }
  }

  lemma {:induction false} SelectHasOneKey<T(!new)>(xs: seq<T>, key: T -> int, k: int)
    ensures Sort(Select(xs, HasKey(key, k)), key) == Select(xs, HasKey(key, k))
  {
    SelectMembers(xs, HasKey(key, k));
    var s := Select(xs, HasKey(key, k));
    forall i, j | 0 <= i < j < |s|
      ensures key(s[i]) >= key(s[j])
    {
      assert s[i] in s && s[j] in s;
      assert HasKey(key, k)(s[i]) && HasKey(key, k)(s[j]);
    }
    SortOfSorted(Select(xs, HasKey(key, k)), key);
  }

  /** `Sort` is the stable sort and the only one. */
  lemma SortIsTheStableSort<T(!new)>(xs: seq<T>, ys: seq<T>, key: T -> int)
    ensures IsStableSort(ys, xs, key) <==> ys == Sort(xs, key)
  {
    SortSorted(xs, key);
    forall k
      ensures Select(Sort(xs, key), HasKey(key, k)) == Select(xs, HasKey(key, k))
    {
      SelectSort(xs, HasKey(key, k), key);
      SelectHasOneKey(xs, key, k);
    }
    if IsStableSort(ys, xs, key) {
      StableSortUnique(ys, Sort(xs, key), key);
    }
  }
}
