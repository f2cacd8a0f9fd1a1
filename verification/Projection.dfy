/**
 * filterAndSortRepos: keep the repositories of one language (or all of them)
 * and sort the copy, stably, in descending order of the chosen key.
 *
 * The order is specified by `StableSort`, a functional insertion sort; its
 * lemmas prove that it sorts, permutes and keeps equal keys in input order,
 * and that it is the only order with these properties, so the model does not
 * depend on which stable algorithm the JavaScript engine uses.
 */
module Projection {
  import opened Wrappers
  import opened Repos
  import Languages

  // ---------------------------------------------------------------------------
  // Filtering by language

  /** `repos.filter((repo) => repo.language === language)`. */
  function FilterByLanguage(repos: seq<Repository>, language: string): (r: seq<Repository>)
    ensures |r| <= |repos|
    ensures forall i :: 0 <= i < |r| ==> r[i].language == Some(language)
    ensures forall x :: multiset(r)[x] == if x.language == Some(language) then multiset(repos)[x] else 0
  {
    if repos == [] then []
    else
      var rest := FilterByLanguage(repos[1..], language);
      assert repos == [repos[0]] + repos[1..];
      if repos[0].language == Some(language) then [repos[0]] + rest else rest
  }

  /** The language step of filterAndSortRepos: an empty selection keeps everything. */
  function Selected(repos: seq<Repository>, language: string): seq<Repository>
  {
    if language != "" then FilterByLanguage(repos, language) else repos
  }

  // ---------------------------------------------------------------------------
  // Order

  /** Non-increasing in the chosen key. */
  predicate SortedDesc(s: seq<Repository>, key: SortKey)
  {
    forall i, j :: 0 <= i < j < |s| ==> KeyOf(s[i], key) >= KeyOf(s[j], key)
  }

  /** The repositories of `s` whose key equals `k`, in the order of `s`. */
  function WithKey(s: seq<Repository>, key: SortKey, k: int): (r: seq<Repository>)
    ensures |r| <= |s|
    ensures forall i :: 0 <= i < |r| ==> KeyOf(r[i], key) == k && r[i] in s
  {
    if s == [] then []
    else if KeyOf(s[0], key) == k then [s[0]] + WithKey(s[1..], key, k)
    else WithKey(s[1..], key, k)
  }

  /**
   * Inserts `x` into `s` after every element whose key is at least that of
   * `x`: scanning from the back, `x` moves past exactly the elements with a
   * strictly smaller key, which is what a comparator returning 0 for equal
   * keys lets a stable sort do.
   */
  function Insert(s: seq<Repository>, x: Repository, key: SortKey): seq<Repository>
  {
    if s == [] || KeyOf(s[|s| - 1], key) >= KeyOf(x, key) then s + [x]
    else Insert(s[..|s| - 1], x, key) + [s[|s| - 1]]
  }

  /** Insertion sort, descending by `key`: the reference for the in-place sort. */
  function StableSort(s: seq<Repository>, key: SortKey): seq<Repository>
  {
    if s == [] then []
    else Insert(StableSort(s[..|s| - 1], key), s[|s| - 1], key)
  }

  /** The value filterAndSortRepos returns for `repos`, `language` and `sortBy`. */
  function FilterAndSort(repos: seq<Repository>, language: string, sortBy: string): seq<Repository>
  {
    StableSort(Selected(repos, language), ParseSortKey(sortBy))
  }

  // ---------------------------------------------------------------------------
  // Lemmas about the specification

  lemma {:induction false} WithKeyAppend(a: seq<Repository>, b: seq<Repository>, key: SortKey, k: int)
    ensures WithKey(a + b, key, k) == WithKey(a, key, k) + WithKey(b, key, k)
  {
    if a == [] {
      assert a + b == b;
    } else {
      assert (a + b)[0] == a[0];
      assert (a + b)[1..] == a[1..] + b;
      WithKeyAppend(a[1..], b, key, k);
    }
  }

  /** Filtering by language and by key commute: both keep the input order. */
  lemma {:induction false} WithKeyFilterCommute(s: seq<Repository>, language: string, key: SortKey, k: int)
    ensures WithKey(FilterByLanguage(s, language), key, k) == FilterByLanguage(WithKey(s, key, k), language)
  {
    if s != [] {
      WithKeyFilterCommute(s[1..], language, key, k);
    }
  }

  lemma {:induction false} InsertPermutes(s: seq<Repository>, x: Repository, key: SortKey)
    ensures multiset(Insert(s, x, key)) == multiset(s) + multiset{x}
  {
    if s != [] && KeyOf(s[|s| - 1], key) < KeyOf(x, key) {
      var init := s[..|s| - 1];
      assert s == init + [s[|s| - 1]];
      InsertPermutes(init, x, key);
    }
  }

  /** The reference sort is a permutation of its input. */
  lemma {:induction false} StableSortPermutes(s: seq<Repository>, key: SortKey)
    ensures multiset(StableSort(s, key)) == multiset(s)
  {
    if s != [] {
      var init := s[..|s| - 1];
      assert s == init + [s[|s| - 1]];
      StableSortPermutes(init, key);
      InsertPermutes(StableSort(init, key), s[|s| - 1], key);
    }
  }

  /** Every element of `Insert(s, x, key)` is `x` or an element of `s`. */
  lemma {:induction false} InsertElements(s: seq<Repository>, x: Repository, key: SortKey)
    ensures forall y :: y in Insert(s, x, key) ==> y == x || y in s
  {
    if s != [] && KeyOf(s[|s| - 1], key) < KeyOf(x, key) {
      var init := s[..|s| - 1];
      InsertElements(init, x, key);
      assert forall y :: y in init ==> y in s;
    }
  }

  lemma {:induction false} InsertSorted(s: seq<Repository>, x: Repository, key: SortKey)
    requires SortedDesc(s, key)
    ensures SortedDesc(Insert(s, x, key), key)
  {
    if s != [] && KeyOf(s[|s| - 1], key) < KeyOf(x, key) {
      var init, last := s[..|s| - 1], s[|s| - 1];
      InsertSorted(init, x, key);
      var r := Insert(init, x, key);
      InsertElements(init, x, key);
      forall i | 0 <= i < |r|
        ensures KeyOf(r[i], key) >= KeyOf(last, key)
      {
        assert r[i] in r;
        if r[i] != x {
          assert r[i] in init;
          var m :| 0 <= m < |init| && init[m] == r[i];
          assert s[m] == r[i];
        }
      }
      assert Insert(s, x, key) == r + [last];
    }
  }

  /** The repositories of a one-element sequence whose key is `k`. */
  lemma WithKeySingleton(x: Repository, key: SortKey, k: int)
    ensures WithKey([x], key, k) == if KeyOf(x, key) == k then [x] else []
  {
  }

  lemma {:induction false} InsertWithKey(s: seq<Repository>, x: Repository, key: SortKey, k: int)
    ensures WithKey(Insert(s, x, key), key, k) == WithKey(s, key, k) + WithKey([x], key, k)
  {
    if s == [] || KeyOf(s[|s| - 1], key) >= KeyOf(x, key) {
      WithKeyAppend(s, [x], key, k);
    } else {
      var init, last := s[..|s| - 1], s[|s| - 1];
      var px, pl := WithKey([x], key, k), WithKey([last], key, k);
      // `last` and `x` have different keys, so at most one of them is kept.
      assert px == [] || pl == [] by {
        WithKeySingleton(x, key, k);
        WithKeySingleton(last, key, k);
      }
      calc {
        WithKey(Insert(s, x, key), key, k);
        WithKey(Insert(init, x, key) + [last], key, k);
        { WithKeyAppend(Insert(init, x, key), [last], key, k); }
        WithKey(Insert(init, x, key), key, k) + pl;
        { InsertWithKey(init, x, key, k); }
        WithKey(init, key, k) + px + pl;
        WithKey(init, key, k) + pl + px;
        { WithKeyAppend(init, [last], key, k); assert init + [last] == s; }
        WithKey(s, key, k) + px;
      }
    }
  }

  /** The reference sort orders by the key, descending. */
  lemma {:induction false} StableSortSorted(s: seq<Repository>, key: SortKey)
    ensures SortedDesc(StableSort(s, key), key)
  {
    if s != [] {
      StableSortSorted(s[..|s| - 1], key);
      InsertSorted(StableSort(s[..|s| - 1], key), s[|s| - 1], key);
    }
  }

  /** The reference sort is stable: the repositories of any one key keep their input order. */
  lemma {:induction false} StableSortStable(s: seq<Repository>, key: SortKey, k: int)
    ensures WithKey(StableSort(s, key), key, k) == WithKey(s, key, k)
  {
    if s != [] {
      var init, last := s[..|s| - 1], s[|s| - 1];
      assert s == init + [last];
      StableSortStable(init, key, k);
      InsertWithKey(StableSort(init, key), last, key, k);
      WithKeyAppend(init, [last], key, k);
    }
  }

  lemma WithKeyHead(s: seq<Repository>, key: SortKey)
    requires s != []
    ensures WithKey(s, key, KeyOf(s[0], key)) != []
  {
  }

  /** Dropping the first element of `s` drops it from the projection of its key only. */
  lemma WithKeyTail(s: seq<Repository>, key: SortKey, k: int)
    requires s != []
    ensures WithKey(s[1..], key, k)
         == if KeyOf(s[0], key) == k then WithKey(s, key, k)[1..] else WithKey(s, key, k)
  {
  }

  /** In a sorted sequence the first element has the largest key present. */
  lemma SortedHeadIsMax(s: seq<Repository>, key: SortKey, k: int)
    requires SortedDesc(s, key) && s != []
    requires WithKey(s, key, k) != []
    ensures KeyOf(s[0], key) >= k
  {
  }

  /** Two such sequences are both empty or both start with the same repository. */
  lemma SortedProjectionsHead(t: seq<Repository>, u: seq<Repository>, key: SortKey)
    requires SortedDesc(t, key) && SortedDesc(u, key)
    requires forall k :: WithKey(t, key, k) == WithKey(u, key, k)
    ensures t == [] <==> u == []
    ensures t != [] ==> t[0] == u[0]
  {
    if t != [] {
      WithKeyHead(t, key);
    }
    if u != [] {
      WithKeyHead(u, key);
    }
    if t != [] && u != [] {
      var kt, ku := KeyOf(t[0], key), KeyOf(u[0], key);
      SortedHeadIsMax(u, key, kt);
      SortedHeadIsMax(t, key, ku);
      assert WithKey(t, key, kt)[0] == t[0];
      assert WithKey(u, key, kt)[0] == u[0];
    }
  }

  /**
   * Two sequences sorted by the same key whose repositories of each key come
   * in the same order are equal.
   */
  lemma {:induction false} SortedProjectionsDetermine(t: seq<Repository>, u: seq<Repository>, key: SortKey)
    requires SortedDesc(t, key) && SortedDesc(u, key)
    requires forall k :: WithKey(t, key, k) == WithKey(u, key, k)
    ensures t == u
  {
    SortedProjectionsHead(t, u, key);
    if t != [] {
      forall k
        ensures WithKey(t[1..], key, k) == WithKey(u[1..], key, k)
      {
        WithKeyTail(t, key, k);
        WithKeyTail(u, key, k);
      }
      SortedProjectionsDetermine(t[1..], u[1..], key);
      assert t == [t[0]] + t[1..] && u == [u[0]] + u[1..];
    }
  }

  /**
   * Any stable descending order of `s` is `StableSort(s, key)`: the result of
   * `Array.prototype.sort` with these comparators is fully determined.
   */
  lemma StableSortUnique(s: seq<Repository>, t: seq<Repository>, key: SortKey)
    requires SortedDesc(t, key)
    requires forall k :: WithKey(t, key, k) == WithKey(s, key, k)
    ensures t == StableSort(s, key)
  {
    StableSortSorted(s, key);
    forall k ensures WithKey(t, key, k) == WithKey(StableSort(s, key), key, k) {
      StableSortStable(s, key, k);
    }
    SortedProjectionsDetermine(t, StableSort(s, key), key);
  }

  /**
   * What filterAndSortRepos promises: the result is sorted by the selected
   * key, holds exactly the repositories that pass the language filter (with
   * their multiplicities), and the repositories sharing a key value appear in
   * input order.
   */
  lemma FilterAndSortCorrect(repos: seq<Repository>, language: string, sortBy: string)
    ensures var r, key := FilterAndSort(repos, language, sortBy), ParseSortKey(sortBy);
      && SortedDesc(r, key)
      && (language == "" ==> multiset(r) == multiset(repos) && |r| == |repos|)
      && (language != "" ==> forall i :: 0 <= i < |r| ==> r[i].language == Some(language))
      && (language != "" ==> forall x :: multiset(r)[x] == if x.language == Some(language) then multiset(repos)[x] else 0)
      && (forall k :: WithKey(r, key, k) == Selected(WithKey(repos, key, k), language))
  {
    var key := ParseSortKey(sortBy);
    var sel := Selected(repos, language);
    var r := StableSort(sel, key);
    StableSortSorted(sel, key);
    StableSortPermutes(sel, key);
    if language != "" {
      forall i | 0 <= i < |r| ensures r[i].language == Some(language) {
        assert r[i] in multiset(r);
        assert r[i] in multiset(sel);
        var m :| 0 <= m < |sel| && sel[m] == r[i];
      }
    }
    forall k ensures WithKey(r, key, k) == Selected(WithKey(repos, key, k), language) {
      StableSortStable(sel, key, k);
      if language != "" {
        WithKeyFilterCommute(repos, language, key, k);
      }
    }
  }

  /**
   * displayUserRepos offers "All Languages" and the languages of
   * getUniqueLanguages; choosing any of them keeps at least one repository,
   * whatever the order.
   */
  lemma LanguageOptionNeverEmpty(repos: seq<Repository>, language: string, sortBy: string)
    requires language in Languages.UniqueLanguages(repos)
    ensures |FilterAndSort(repos, language, sortBy)| > 0
  {
  }

  // ---------------------------------------------------------------------------
  // The imperative code

  /**
   * `filteredRepos.sort((a, b) => KeyOf(b) - KeyOf(a))` on the array: an
   * in-place insertion sort by adjacent swaps that never swaps equal keys.
   */
  method SortInPlace(a: array<Repository>, key: SortKey)
    modifies a
    ensures a[..] == StableSort(old(a[..]), key)
  {
    ghost var orig := a[..];
    var i := 0;
    while i < a.Length
      invariant 0 <= i <= a.Length
      invariant a[..i] == StableSort(orig[..i], key)
      invariant forall m :: i <= m < a.Length ==> a[m] == orig[m]
    {
      ghost var prev := a[..i];
      InsertInPlace(a, i, key);
      StableSortPrefix(orig, i, key, prev, a[..i + 1]);
      i := i + 1;
    }
    assert a[..] == a[..a.Length];
    assert orig == orig[..a.Length];
  }

  /**
   * One pass of the insertion sort: moves `a[i]` left past every element of
   * the sorted prefix `a[..i]` with a strictly smaller key.
   */
  method InsertInPlace(a: array<Repository>, i: nat, key: SortKey)
    requires i < a.Length
    modifies a
    ensures a[..i + 1] == Insert(old(a[..i]), old(a[i]), key)
    ensures forall m :: i < m < a.Length ==> a[m] == old(a[m])
  {
    ghost var done := a[..i];
    var x := a[i];
    var j := i;
    while j > 0 && KeyOf(a[j - 1], key) < KeyOf(a[j], key)
      invariant 0 <= j <= i
      invariant a[j] == x
      invariant forall m :: 0 <= m < j ==> a[m] == done[m]
      invariant forall m :: j < m <= i ==> a[m] == done[m - 1]
      invariant forall m :: i < m < a.Length ==> a[m] == old(a[m])
      invariant forall m :: j <= m < i ==> KeyOf(done[m], key) < KeyOf(x, key)
    {
      a[j - 1], a[j] := a[j], a[j - 1];
      j := j - 1;
    }
    InsertAt(done, x, key, j);
    assert a[..i + 1] == done[..j] + [x] + done[j..];
  }

  /** Sorting one more element of `s` is inserting it into the sorted prefix. */
  lemma StableSortPrefix(s: seq<Repository>, i: nat, key: SortKey, prev: seq<Repository>, next: seq<Repository>)
    requires i < |s|
    requires prev == StableSort(s[..i], key)
    requires next == Insert(prev, s[i], key)
    ensures next == StableSort(s[..i + 1], key)
  {
    assert s[..i + 1][..i] == s[..i];
  }

  /** Where the in-place sort's inner loop stops is where `Insert` puts `x`. */
  lemma {:induction false} InsertAt(s: seq<Repository>, x: Repository, key: SortKey, j: nat)
    requires j <= |s|
    requires forall m :: j <= m < |s| ==> KeyOf(s[m], key) < KeyOf(x, key)
    requires j == 0 || KeyOf(s[j - 1], key) >= KeyOf(x, key)
    ensures Insert(s, x, key) == s[..j] + [x] + s[j..]
  {
    if j < |s| {
      var init := s[..|s| - 1];
      InsertAt(init, x, key, j);
      assert s[..j] == init[..j];
      assert s[j..] == init[j..] + [s[|s| - 1]];
    } else {
      assert s[..j] == s;
    }
  }

  /**
   * filterAndSortRepos (script.js): copies `repos`, filters the copy when a
   * language is selected, sorts the result in place and returns it. The input
   * array is not in any `modifies` clause, so it is left unchanged.
   */
  method FilterAndSortRepos(repos: array<Repository>, language: string, sortBy: string)
    returns (result: array<Repository>)
    ensures fresh(result)
    ensures result[..] == FilterAndSort(repos[..], language, sortBy)
  {
    result := new Repository[repos.Length](i requires 0 <= i < repos.Length reads repos => repos[i]);
    assert result[..] == repos[..];
    if language != "" {
      var kept := FilterByLanguage(result[..], language);
      result := new Repository[|kept|](i requires 0 <= i < |kept| => kept[i]);
      assert result[..] == kept;
    }
    SortInPlace(result, ParseSortKey(sortBy));
  }
}
