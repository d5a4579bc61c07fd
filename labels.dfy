/** Label ordering and keyword categorisation, as `get_available_labels`
    and `get_structures_by_repository` apply them to a set of labels:
    `sorted(all_labels)`, then every label goes to the first bucket whose
    keywords it contains (KG_Manage/data_loader.py:146-174, 265-292). */
module Labels {

  /** Python's `<` on strings: lexicographic by code point. */
  predicate LexLess(a: string, b: string)
    decreases |a|
  {
    if a == [] then b != []
    else if b == [] then false
    else a[0] < b[0] || (a[0] == b[0] && LexLess(a[1..], b[1..]))
  }

  lemma {:induction false} LexLessIrreflexive(a: string)
    ensures !LexLess(a, a)
    decreases |a|
  {
    if a != [] {
      LexLessIrreflexive(a[1..]);
    }
  }

  lemma {:induction false} LexLessTransitive(a: string, b: string, c: string)
    requires LexLess(a, b) && LexLess(b, c)
    ensures LexLess(a, c)
    decreases |a|
  {
    if a != [] && b != [] && c != [] && a[0] == b[0] && b[0] == c[0] {
      LexLessTransitive(a[1..], b[1..], c[1..]);
    }
  }

  lemma {:induction false} LexLessTotal(a: string, b: string)
    requires a != b
    ensures LexLess(a, b) || LexLess(b, a)
    decreases |a|
  {
    if a != [] && b != [] && a[0] == b[0] {
      assert a == [a[0]] + a[1..] && b == [b[0]] + b[1..];
      LexLessTotal(a[1..], b[1..]);
    }
  }

  /** Strictly ascending, hence also free of duplicates. */
  predicate Sorted(s: seq<string>) {
    forall i, j :: 0 <= i < j < |s| ==> LexLess(s[i], s[j])
  }

  predicate IsLeast(m: string, xs: set<string>) {
    m in xs && forall x :: x in xs && x != m ==> LexLess(m, x)
  }

  lemma {:induction false} LeastExists(xs: set<string>)
    requires xs != {}
    ensures exists m :: IsLeast(m, xs)
    decreases |xs|
  {
    var y :| y in xs;
    if xs != {y} {
      var rest := xs - {y};
      LeastExists(rest);
      var m :| IsLeast(m, rest);
      LexLessTotal(m, y);
      if LexLess(y, m) {
        forall x | x in xs && x != y ensures LexLess(y, x) {
          if x != m {
            LexLessTransitive(y, m, x);
          }
        }
        assert IsLeast(y, xs);
      } else {
        assert IsLeast(m, xs);
      }
    } else {
      assert IsLeast(y, xs);
    }
  }

  /** `sorted(labels)` for a set of labels: every label once, ascending. */
  method SortLabels(labels: set<string>) returns (s: seq<string>)
    ensures Sorted(s)
    ensures forall x :: x in s <==> x in labels
    ensures |s| == |labels|
  {
    s := [];
    var rest := labels;
    while rest != {}
      invariant Sorted(s)
      invariant forall x :: x in s ==> x in labels && x !in rest
      invariant forall x :: x in labels ==> x in s || x in rest
      invariant rest <= labels
      invariant forall i, x :: 0 <= i < |s| && x in rest ==> LexLess(s[i], x)
      invariant |s| + |rest| == |labels|
      decreases |rest|
    {
      LeastExists(rest);
      var m :| IsLeast(m, rest);
      s := s + [m];
      rest := rest - {m};
    }
  }

  /** `sub in s` for strings. */
  predicate IsSubstring(sub: string, s: string)
    decreases |s|
  {
    sub <= s || (s != [] && IsSubstring(sub, s[1..]))
  }

  /** `any(keyword in label for keyword in keywords)`. */
  predicate MatchesAny(labelName: string, keywords: seq<string>) {
    exists j :: 0 <= j < |keywords| && IsSubstring(keywords[j], labelName)
  }

  /** Keyword lists of the first five buckets, in the order they are tested. */
  const Keywords: seq<seq<string>> :=
    [["step", "Step"], ["hole", "Hole"], ["slot", "Slot"], ["pocket", "Pocket"], ["passage", "Passage"]]

  /** Bucket names, in the order the result lists them. */
  const CategoryNames: seq<string> :=
    ["Step Labels", "Hole Labels", "Slot Labels", "Pocket Labels", "Passage Labels", "Other Labels"]

  const Other: nat := 5

  /** The bucket a label goes to: the first keyword list it matches, or Other. */
  function CategoryOf(labelName: string): (c: nat)
    ensures c <= Other
  {
    FirstMatch(labelName, 0)
  }

  function FirstMatch(labelName: string, k: nat): (c: nat)
    requires k <= Other
    ensures k <= c <= Other
    ensures c < Other ==> MatchesAny(labelName, Keywords[c])
    ensures forall j :: k <= j < c ==> !MatchesAny(labelName, Keywords[j])
    decreases Other - k
  {
    if k == Other then Other
    else if MatchesAny(labelName, Keywords[k]) then k
    else FirstMatch(labelName, k + 1)
  }

  /** The labels of `s` that go to bucket `c`, in the order of `s`. */
  function Bucket(s: seq<string>, c: nat): (r: seq<string>)
    ensures forall x :: x in r <==> x in s && CategoryOf(x) == c
  {
    if s == [] then []
    else Bucket(s[..|s| - 1], c) + (if CategoryOf(s[|s| - 1]) == c then [s[|s| - 1]] else [])
  }

  /** The categorisation loop: each label, in order, is appended to the
      bucket of the first matching keyword list (if/elif chain). */
  method Categorize(sortedLabels: seq<string>) returns (buckets: seq<seq<string>>)
    ensures |buckets| == |CategoryNames|
    ensures forall c :: 0 <= c < |buckets| ==> buckets[c] == Bucket(sortedLabels, c)
  {
    buckets := [[], [], [], [], [], []];
    var i := 0;
    while i < |sortedLabels|
      invariant 0 <= i <= |sortedLabels|
      invariant |buckets| == 6
      invariant forall c :: 0 <= c < 6 ==> buckets[c] == Bucket(sortedLabels[..i], c)
    {
      var l := sortedLabels[i];
      var c: nat;
      if MatchesAny(l, Keywords[0]) {
        c := 0;
      } else if MatchesAny(l, Keywords[1]) {
        c := 1;
      } else if MatchesAny(l, Keywords[2]) {
        c := 2;
      } else if MatchesAny(l, Keywords[3]) {
        c := 3;
      } else if MatchesAny(l, Keywords[4]) {
        c := 4;
      } else {
        c := Other;
      }
      assert c == CategoryOf(l);
      assert sortedLabels[..i + 1][..i] == sortedLabels[..i];
      buckets := buckets[c := buckets[c] + [l]];
      i := i + 1;
    }
    assert sortedLabels[..i] == sortedLabels;
  }

  /** A bucket of a sorted sequence is itself sorted. */
  lemma {:induction false} BucketSorted(s: seq<string>, c: nat)
    requires Sorted(s)
    ensures Sorted(Bucket(s, c))
  {
    if s != [] {
      var s' := s[..|s| - 1];
      assert Sorted(s');
      BucketSorted(s', c);
      var b := Bucket(s', c);
      forall i | 0 <= i < |b| ensures LexLess(b[i], s[|s| - 1]) {
        assert b[i] in s';
      }
    }
  }

  /** Every label of `s` lands in exactly one bucket, and each bucket is
      sorted: the buckets partition the sorted label list. */
  lemma CategorizePartitions(s: seq<string>, buckets: seq<seq<string>>)
    requires Sorted(s)
    requires |buckets| == |CategoryNames|
    requires forall c :: 0 <= c < |buckets| ==> buckets[c] == Bucket(s, c)
    ensures forall x :: x in s ==> x in buckets[CategoryOf(x)]
    ensures forall x, c :: 0 <= c < |buckets| && x in buckets[c] ==> x in s && c == CategoryOf(x)
    ensures forall c :: 0 <= c < |buckets| ==> Sorted(buckets[c])
  {
    forall c | 0 <= c < |buckets| ensures Sorted(buckets[c]) {
      BucketSorted(s, c);
    }
  }

  /** First match wins: a label is put in bucket `c` only when it contains a
      keyword of list `c` and no keyword of an earlier list. */
  lemma CategoryFirstMatchWins(labelName: string, c: nat)
    requires CategoryOf(labelName) == c
    ensures c < Other ==> MatchesAny(labelName, Keywords[c])
    ensures forall j :: 0 <= j < c ==> !MatchesAny(labelName, Keywords[j])
  {
  }
}
