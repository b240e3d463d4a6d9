/**
 What the grading pass does to its two insertion-ordered maps, stated on
 values. Scanning a roster whose grades are `ls`, it adds one to the count of each
 grade (`Tally`) and appends each student to the list of its grade
 (`Bucket`). Both are folds that start from whatever the maps already hold.
 Beside them are reference definitions (occurrence counts, in-order filters,
 first-encounter order), with lemmas tying the folds to them.
 */
module Grouping {
  import opened OrderedMaps

  // ---------------------------------------------------------------------------
  // The two folds performed by the grading loop.

  /** The count map after counting the grades `ls` one by one, in order. */
  function Tally(d: OrderedMap<int>, ls: seq<string>): OrderedMap<int>
    decreases |ls|
  {
    if ls == [] then d
    else
      var prev := Tally(d, ls[..|ls| - 1]);
      var l := ls[|ls| - 1];
      prev.Put(l, prev.GetOrDefault(l, 0) + 1)
  }

  /** The group map after appending each `xs[i]` to the list of its grade `ls[i]`, in order. */
  function Bucket<T>(g: OrderedMap<seq<T>>, xs: seq<T>, ls: seq<string>): OrderedMap<seq<T>>
    requires |xs| == |ls|
    decreases |ls|
  {
    if ls == [] then g
    else
      var prev := Bucket(g, xs[..|xs| - 1], ls[..|ls| - 1]);
      var l := ls[|ls| - 1];
      prev.Put(l, prev.GetOrDefault(l, []) + [xs[|xs| - 1]])
  }

  /** Counting keeps the count map well formed. */
  lemma {:induction false} TallyValid(d: OrderedMap<int>, ls: seq<string>)
    requires d.Valid()
    ensures Tally(d, ls).Valid()
    decreases |ls|
  {
    if ls != [] {
      var prev := Tally(d, ls[..|ls| - 1]);
      TallyValid(d, ls[..|ls| - 1]);
      PutValid(prev, ls[|ls| - 1], prev.GetOrDefault(ls[|ls| - 1], 0) + 1);
    }
  }

  /** Grouping keeps the group map well formed. */
  lemma {:induction false} BucketValid<T>(g: OrderedMap<seq<T>>, xs: seq<T>, ls: seq<string>)
    requires g.Valid() && |xs| == |ls|
    ensures Bucket(g, xs, ls).Valid()
    decreases |ls|
  {
    if ls != [] {
      var n := |ls| - 1;
      var prev := Bucket(g, xs[..n], ls[..n]);
      BucketValid(g, xs[..n], ls[..n]);
      PutValid(prev, ls[n], prev.GetOrDefault(ls[n], []) + [xs[n]]);
    }
  }

  /** Counting grade `i` of `ls` turns the count map for `ls[..i]` into the one for `ls[..i + 1]`. */
  lemma {:induction false} TallyStep(d: OrderedMap<int>, ls: seq<string>, i: nat, before: OrderedMap<int>, after: OrderedMap<int>)
    requires i < |ls| && before == Tally(d, ls[..i])
    requires after == before.Put(ls[i], before.GetOrDefault(ls[i], 0) + 1)
    ensures after == Tally(d, ls[..i + 1])
  {
    assert ls[..i + 1][..i] == ls[..i];
  }

  /** Appending element `i` to its grade's list turns the group map for the first `i` elements into the one for `i + 1`. */
  lemma {:induction false} BucketStep<T>(g: OrderedMap<seq<T>>, xs: seq<T>, ls: seq<string>, i: nat,
                      before: OrderedMap<seq<T>>, after: OrderedMap<seq<T>>)
    requires |xs| == |ls| && i < |ls| && before == Bucket(g, xs[..i], ls[..i])
    requires after == before.Put(ls[i], before.GetOrDefault(ls[i], []) + [xs[i]])
    ensures after == Bucket(g, xs[..i + 1], ls[..i + 1])
  {
    assert ls[..i + 1][..i] == ls[..i];
    assert xs[..i + 1][..i] == xs[..i];
  }

  // ---------------------------------------------------------------------------
  // Reference definitions.

  /** The elements of `xs` whose grade is `grade`, in their order in `xs`. */
  function Filter<T>(xs: seq<T>, ls: seq<string>, grade: string): (r: seq<T>)
    requires |xs| == |ls|
    ensures |r| == multiset(ls)[grade]
    decreases |ls|
  {
    if ls == [] then []
    else
      var rest := Filter(xs[..|xs| - 1], ls[..|ls| - 1], grade);
      assert ls == ls[..|ls| - 1] + [ls[|ls| - 1]];
      if ls[|ls| - 1] == grade then rest + [xs[|xs| - 1]] else rest
  }

  /** `ks` followed by the grades of `ls` that it does not list yet, each once, in order of appearance. */
  function AddNew(ks: seq<string>, ls: seq<string>): seq<string>
    decreases |ls|
  {
    if ls == [] then ks
    else
      var prev := AddNew(ks, ls[..|ls| - 1]);
      var l := ls[|ls| - 1];
      if l in prev then prev else prev + [l]
  }

  /** The distinct grades of `ls` in the order in which each first appears. */
  function FirstEncounter(ls: seq<string>): seq<string>
  {
    AddNew([], ls)
  }

  /** The position of the first occurrence of `x` in `ls`. */
  function FirstIndex(ls: seq<string>, x: string): (r: nat)
    requires x in ls
    ensures r < |ls| && ls[r] == x && x !in ls[..r]
  {
    if ls[0] == x then 0
    else
      var r := 1 + FirstIndex(ls[1..], x);
      assert ls[..r] == [ls[0]] + ls[1..][..r - 1];
      r
  }

  // ---------------------------------------------------------------------------
  // Facts about the reference definitions.

  lemma {:induction false} FirstIndexExtend(ls: seq<string>, y: string, x: string)
    requires x in ls + [y]
    ensures x in ls ==> FirstIndex(ls + [y], x) == FirstIndex(ls, x)
    ensures x !in ls ==> FirstIndex(ls + [y], x) == |ls|
  {
    var i := FirstIndex(ls + [y], x);
    if x in ls {
      var j := FirstIndex(ls, x);
      assert (ls + [y])[j] == x;
      assert (ls + [y])[..j] == ls[..j];
    }
  }

  lemma {:induction false} AddNewFacts(ks: seq<string>, ls: seq<string>)
    requires Distinct(ks)
    ensures Distinct(AddNew(ks, ls))
    ensures forall x :: x in AddNew(ks, ls) <==> x in ks || x in ls
    ensures |AddNew(ks, ls)| >= |ks| && AddNew(ks, ls)[..|ks|] == ks
    decreases |ls|
  {
    if ls != [] {
      var pre := ls[..|ls| - 1];
      var l := ls[|ls| - 1];
      AddNewFacts(ks, pre);
      assert ls == pre + [l];
      var prev := AddNew(ks, pre);
      if l !in prev {
        assert (prev + [l])[..|ks|] == prev[..|ks|];
      }
    }
  }

  /**
   `FirstEncounter` lists each grade of `ls` exactly once, nothing else, and a
   grade that first appears earlier in `ls` comes earlier in the list.
   */
  lemma {:induction false} FirstEncounterOrder(ls: seq<string>)
    ensures Distinct(FirstEncounter(ls))
    ensures forall x :: x in FirstEncounter(ls) <==> x in ls
    ensures forall i, j :: 0 <= i < j < |FirstEncounter(ls)| ==>
              FirstIndex(ls, FirstEncounter(ls)[i]) < FirstIndex(ls, FirstEncounter(ls)[j])
    decreases |ls|
  {
    AddNewFacts([], ls);
    if ls != [] {
      var pre := ls[..|ls| - 1];
      var l := ls[|ls| - 1];
      assert ls == pre + [l];
      FirstEncounterOrder(pre);
      var fe := FirstEncounter(pre);
      forall k | k in fe
        ensures FirstIndex(ls, k) == FirstIndex(pre, k)
      {
        FirstIndexExtend(pre, l, k);
      }
      if l !in fe {
        FirstIndexExtend(pre, l, l);
        var fe' := fe + [l];
        forall i, j | 0 <= i < j < |fe'|
          ensures FirstIndex(ls, fe'[i]) < FirstIndex(ls, fe'[j])
        {
          assert fe'[i] in fe;
          if j < |fe| {
            assert fe'[j] in fe;
          }
        }
      }
    }
  }

  lemma {:induction false} FilterMembers<T>(xs: seq<T>, ls: seq<string>, grade: string, x: T)
    requires |xs| == |ls|
    ensures x in Filter(xs, ls, grade) <==> exists i :: 0 <= i < |xs| && xs[i] == x && ls[i] == grade
    decreases |ls|
  {
    if ls != [] {
      var n := |ls| - 1;
      FilterMembers(xs[..n], ls[..n], grade, x);
      if x in Filter(xs, ls, grade) && x !in Filter(xs[..n], ls[..n], grade) {
        assert xs[n] == x && ls[n] == grade;
      }
      if exists i :: 0 <= i < |xs| && xs[i] == x && ls[i] == grade {
        var i :| 0 <= i < |xs| && xs[i] == x && ls[i] == grade;
        if i < n {
          assert xs[..n][i] == x && ls[..n][i] == grade;
        }
      }
    }
  }

  // ---------------------------------------------------------------------------
  // The folds against the reference definitions, from any starting maps.

  /** Each grade's count grows by the number of times it occurs in `ls`. */
  lemma {:induction false} TallyCounts(d: OrderedMap<int>, ls: seq<string>, grade: string)
    requires d.Valid()
    ensures Tally(d, ls).GetOrDefault(grade, 0) == d.GetOrDefault(grade, 0) + multiset(ls)[grade]
    ensures grade in Tally(d, ls).entries <==> grade in d.entries || grade in ls
    decreases |ls|
  {
    if ls != [] {
      var pre := ls[..|ls| - 1];
      assert ls == pre + [ls[|ls| - 1]];
      TallyCounts(d, pre, grade);
    }
  }

  /** Keys keep their places; grades seen for the first time are added in order of appearance. */
  lemma {:induction false} TallyKeys(d: OrderedMap<int>, ls: seq<string>)
    requires d.Valid()
    ensures Tally(d, ls).keys == AddNew(d.keys, ls)
    decreases |ls|
  {
    if ls != [] {
      TallyKeys(d, ls[..|ls| - 1]);
      TallyValid(d, ls[..|ls| - 1]);
    }
  }

  /** The last grade scanned adds exactly one to the total. */
  lemma {:induction false} TallyTotalLast(d: OrderedMap<int>, ls: seq<string>)
    requires d.Valid() && ls != []
    ensures Total(Tally(d, ls)) == Total(Tally(d, ls[..|ls| - 1])) + 1
  {
    var n := |ls| - 1;
    var prev := Tally(d, ls[..n]);
    TallyValid(d, ls[..n]);
    assert Tally(d, ls) == prev.Put(ls[n], prev.GetOrDefault(ls[n], 0) + 1);
    PutIncrementTotal(prev, ls[n]);
  }

  /** The counts grow in total by exactly one per grade scanned. */
  lemma {:induction false} TallyTotal(d: OrderedMap<int>, ls: seq<string>)
    requires d.Valid()
    ensures Total(Tally(d, ls)) == Total(d) + |ls|
    decreases |ls|
  {
    if ls != [] {
      TallyTotal(d, ls[..|ls| - 1]);
      TallyTotalLast(d, ls);
    }
  }

  /** Each grade's list is extended by the elements with that grade, in input order. */
  lemma {:induction false} BucketGroups<T>(g: OrderedMap<seq<T>>, xs: seq<T>, ls: seq<string>, grade: string)
    requires g.Valid() && |xs| == |ls|
    ensures Bucket(g, xs, ls).GetOrDefault(grade, []) == g.GetOrDefault(grade, []) + Filter(xs, ls, grade)
    ensures grade in Bucket(g, xs, ls).entries <==> grade in g.entries || grade in ls
    decreases |ls|
  {
    if ls != [] {
      var n := |ls| - 1;
      assert ls == ls[..n] + [ls[n]];
      BucketGroups(g, xs[..n], ls[..n], grade);
    }
  }

  lemma {:induction false} BucketKeys<T>(g: OrderedMap<seq<T>>, xs: seq<T>, ls: seq<string>)
    requires g.Valid() && |xs| == |ls|
    ensures Bucket(g, xs, ls).keys == AddNew(g.keys, ls)
    decreases |ls|
  {
    if ls != [] {
      BucketKeys(g, xs[..|xs| - 1], ls[..|ls| - 1]);
      BucketValid(g, xs[..|xs| - 1], ls[..|ls| - 1]);
    }
  }

  /** The elements of `xs`, counted with multiplicity, gathered from the back: a proof device equal to `multiset(xs)`. */
  function Bag<T>(xs: seq<T>): multiset<T>
  {
    if xs == [] then multiset{} else Bag(xs[..|xs| - 1]) + multiset{xs[|xs| - 1]}
  }

  lemma {:induction false} BagIsMultiset<T>(xs: seq<T>)
    ensures Bag(xs) == multiset(xs)
  {
    if xs != [] {
      BagIsMultiset(xs[..|xs| - 1]);
      assert xs == xs[..|xs| - 1] + [xs[|xs| - 1]];
    }
  }

  /** The same fact with the elements gathered from the back, which is the form the induction needs. */
  lemma {:induction false} BucketBag<T>(g: OrderedMap<seq<T>>, xs: seq<T>, ls: seq<string>)
    requires g.Valid() && |xs| == |ls|
    ensures Members(Bucket(g, xs, ls)) == Members(g) + Bag(xs)
    decreases |ls|
  {
    if ls != [] {
      var n := |ls| - 1;
      BucketBag(g, xs[..n], ls[..n]);
      BucketValid(g, xs[..n], ls[..n]);
      var prev := Bucket(g, xs[..n], ls[..n]);
      assert Bucket(g, xs, ls) == prev.Put(ls[n], prev.GetOrDefault(ls[n], []) + [xs[n]]);
      PutAppendMembers(prev, ls[n], xs[n]);
    }
  }

  /** Every scanned element lands in exactly one list: the lists gain the elements of `xs`. */
  lemma {:induction false} BucketMembers<T>(g: OrderedMap<seq<T>>, xs: seq<T>, ls: seq<string>)
    requires g.Valid() && |xs| == |ls|
    ensures Members(Bucket(g, xs, ls)) == Members(g) + multiset(xs)
  {
    BucketBag(g, xs, ls);
    BagIsMultiset(xs);
  }

  // ---------------------------------------------------------------------------
  // Starting from empty maps, as a fresh grading system does.

  /**
   From an empty count map: a grade is a key exactly when it occurs, its count
   is its number of occurrences (so never zero), the keys are in
   first-encounter order, and the counts add up to the roster size.
   */
  lemma {:induction false} DistributionFromEmpty(ls: seq<string>)
    ensures var d := Tally(Empty(), ls);
            d.keys == FirstEncounter(ls)
            && (forall l :: l in d.entries <==> l in ls)
            && (forall l :: l in d.entries ==> d.entries[l] == multiset(ls)[l] > 0)
            && Total(d) == |ls|
  {
    var d := Tally(Empty(), ls);
    TallyKeys(Empty(), ls);
    TallyTotal(Empty(), ls);
    forall l
      ensures l in d.entries <==> l in ls
      ensures l in d.entries ==> d.entries[l] == multiset(ls)[l] > 0
    {
      TallyCounts(Empty(), ls, l);
    }
  }

  /**
   From an empty group map: a grade is a key exactly when it occurs, its list
   is the elements with that grade in input order and has as many elements as
   the grade has occurrences, and the keys are in first-encounter order.
   */
  lemma {:induction false} GroupsFromEmpty<T>(xs: seq<T>, ls: seq<string>)
    requires |xs| == |ls|
    ensures var g := Bucket(Empty(), xs, ls);
            g.keys == FirstEncounter(ls)
            && (forall l :: l in g.entries <==> l in ls)
            && (forall l :: l in g.entries ==>
                  g.entries[l] == Filter(xs, ls, l) && |g.entries[l]| == multiset(ls)[l])
  {
    var g := Bucket(Empty(), xs, ls);
    BucketKeys(Empty(), xs, ls);
    forall l
      ensures l in g.entries <==> l in ls
      ensures l in g.entries ==> g.entries[l] == Filter(xs, ls, l)
    {
      BucketGroups(Empty(), xs, ls, l);
    }
  }

  /**
   From an empty group map the lists partition the roster: together they
   hold every element of `xs` exactly as often as `xs` does.
   */
  lemma {:induction false} PartitionFromEmpty<T>(xs: seq<T>, ls: seq<string>)
    requires |xs| == |ls|
    ensures Members(Bucket(Empty(), xs, ls)) == multiset(xs)
  {
    BucketMembers(Empty(), xs, ls);
  }

  /**
   Both maps, filled from empty by the same scan, list the same keys in
   first-encounter order; each grade's count is the length of its list and
   is never zero; the counts add up to the number of elements scanned; and
   the lists together hold each scanned element exactly once per occurrence.
   */
  lemma {:induction false} ScanFromEmpty<T>(xs: seq<T>, ls: seq<string>)
    requires |xs| == |ls|
    ensures var d := Tally(Empty(), ls);
            var g := Bucket(Empty(), xs, ls);
            d.keys == g.keys == FirstEncounter(ls)
            && (forall l :: l in d.entries ==> l in g.entries && d.entries[l] == |g.entries[l]| > 0)
            && Total(d) == |ls|
            && Members(g) == multiset(xs)
  {
    DistributionFromEmpty(ls);
    GroupsFromEmpty(xs, ls);
    PartitionFromEmpty(xs, ls);
  }

  /**
   When the scanned elements are pairwise different, element `i` sits in the
   list of its own grade and in no other.
   */
  lemma {:induction false} OwnGroupOnly<T>(xs: seq<T>, ls: seq<string>, i: nat, grade: string)
    requires |xs| == |ls| && i < |xs|
    requires forall a, b :: 0 <= a < b < |xs| ==> xs[a] != xs[b]
    ensures var g := Bucket(Empty(), xs, ls);
            xs[i] in g.GetOrDefault(grade, []) <==> grade == ls[i]
  {
    BucketGroups(Empty(), xs, ls, grade);
    FilterMembers(xs, ls, grade, xs[i]);
  }
}
