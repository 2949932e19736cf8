/** `results.sort(key=lambda x: x[0])`: Python's list sort is stable, so the pairs end up in
    ascending date order (string order) and pairs with equal dates keep the order in which
    they were collected. The model sorts by insertion and proves that any rearrangement with
    those two properties is this one, so the algorithm Python uses does not matter. */
module DateSort {
  import opened LexOrder
  import opened Occurrences

  predicate SortedByDate(xs: seq<Occurrence>) {
    forall i, j :: 0 <= i < j < |xs| ==> LexLe(xs[i].date, xs[j].date)
  }

  /** The pairs of xs with date d, in their order in xs. */
  function WithDate(xs: seq<Occurrence>, d: string): seq<Occurrence> {
    if xs == [] then []
    else (if xs[0].date == d then [xs[0]] else []) + WithDate(xs[1..], d)
  }

  /** ys keeps, date by date, the order of xs: a stable rearrangement (and so a permutation). */
  ghost predicate StableFor(xs: seq<Occurrence>, ys: seq<Occurrence>) {
    forall d :: WithDate(ys, d) == WithDate(xs, d)
  }

  /** Puts x in front of the first pair whose date is not smaller. */
  function InsertByDate(x: Occurrence, ys: seq<Occurrence>): seq<Occurrence> {
    if ys == [] then [x]
    else if LexLess(ys[0].date, x.date) then [ys[0]] + InsertByDate(x, ys[1..])
    else [x] + ys
  }

  function SortByDate(xs: seq<Occurrence>): seq<Occurrence> {
    if xs == [] then [] else InsertByDate(xs[0], SortByDate(xs[1..]))
  }

  lemma {:induction false} InsertPermutes(x: Occurrence, ys: seq<Occurrence>)
    ensures multiset(InsertByDate(x, ys)) == multiset(ys) + multiset{x}
  {
    if ys != [] && LexLess(ys[0].date, x.date) {
      InsertPermutes(x, ys[1..]);
      assert ys == [ys[0]] + ys[1..];
    }
  }

  lemma {:induction false} InsertSorted(x: Occurrence, ys: seq<Occurrence>)
    requires SortedByDate(ys)
    ensures SortedByDate(InsertByDate(x, ys))
  {
    if ys != [] {
      if LexLess(ys[0].date, x.date) {
        var rest := InsertByDate(x, ys[1..]);
        InsertSorted(x, ys[1..]);
        InsertPermutes(x, ys[1..]);
        forall k | 0 <= k < |rest| ensures LexLe(ys[0].date, rest[k].date) {
          assert rest[k] in multiset(rest);
          if rest[k] != x {
            assert rest[k] in ys[1..];
          }
        }
        assert SortedByDate([ys[0]] + rest);
      } else {
        NotLessIsGreaterOrEqual(ys[0].date, x.date);
        forall k | 0 < k < |ys| ensures LexLe(x.date, ys[k].date) {
          LexLeTransitive(x.date, ys[0].date, ys[k].date);
        }
        assert SortedByDate([x] + ys);
      }
    }
  }

  /** Inserting x adds it to the pairs of its date, in front of them. */
  lemma {:induction false} InsertWithDate(x: Occurrence, ys: seq<Occurrence>, d: string)
    ensures WithDate(InsertByDate(x, ys), d) == (if x.date == d then [x] else []) + WithDate(ys, d)
  {
    if ys != [] {
      if LexLess(ys[0].date, x.date) {
        InsertWithDate(x, ys[1..], d);
        assert ([ys[0]] + InsertByDate(x, ys[1..]))[1..] == InsertByDate(x, ys[1..]);
      } else {
        assert ([x] + ys)[1..] == ys;
      }
    }
  }

  /** The sort orders by date. */
  lemma {:induction false} SortByDateSorted(xs: seq<Occurrence>)
    ensures SortedByDate(SortByDate(xs))
    ensures multiset(SortByDate(xs)) == multiset(xs)
  {
    if xs != [] {
      SortByDateSorted(xs[1..]);
      InsertSorted(xs[0], SortByDate(xs[1..]));
      InsertPermutes(xs[0], SortByDate(xs[1..]));
      assert xs == [xs[0]] + xs[1..];
    }
  }

  /** The sort is stable: for every date, the pairs of that date keep their order. */
  lemma {:induction false} SortByDateStable(xs: seq<Occurrence>)
    ensures StableFor(xs, SortByDate(xs))
  {
    if xs != [] {
      SortByDateStable(xs[1..]);
      forall d ensures WithDate(SortByDate(xs), d) == WithDate(xs, d) {
        InsertWithDate(xs[0], SortByDate(xs[1..]), d);
      }
    }
  }

  /** A date that occurs has pairs. */
  lemma WithDateOfHead(ys: seq<Occurrence>, d: string, k: nat)
    requires k < |ys| && ys[k].date == d
    ensures WithDate(ys, d) != []
    decreases k
  {
    if k > 0 && ys[0].date != d {
      WithDateOfHead(ys[1..], d, k - 1);
    }
  }

  lemma NonEmptyHasOwnDate(xs: seq<Occurrence>)
    ensures xs != [] ==> WithDate(xs, xs[0].date) != []
  {
  }

  lemma {:induction false} InWithDate(ys: seq<Occurrence>, d: string, o: Occurrence)
    requires o in WithDate(ys, d)
    ensures o in ys && o.date == d
  {
    if ys != [] && !(ys[0].date == d && o == ys[0]) {
      InWithDate(ys[1..], d, o);
    }
  }

  /** Two sequences sorted by date that agree date by date are equal. */
  lemma {:induction false} SortedStableUnique(ys: seq<Occurrence>, zs: seq<Occurrence>)
    requires SortedByDate(ys) && SortedByDate(zs)
    requires StableFor(ys, zs)
    ensures ys == zs
    decreases |ys| + |zs|
  {
    if ys == [] || zs == [] {
      NonEmptyHasOwnDate(ys);
      NonEmptyHasOwnDate(zs);
    } else {
      var a, b := ys[0], zs[0];
      // b's date occurs in ys, so a's date is not larger; and the other way round.
      WithDateOfHead(zs, b.date, 0);
      assert WithDate(ys, b.date) == WithDate(zs, b.date);
      InWithDate(ys, b.date, WithDate(ys, b.date)[0]);
      LexLeReflexive(a.date);
      assert LexLe(a.date, b.date);
      WithDateOfHead(ys, a.date, 0);
      assert WithDate(zs, a.date) == WithDate(ys, a.date);
      InWithDate(zs, a.date, WithDate(zs, a.date)[0]);
      LexLeReflexive(b.date);
      assert LexLe(b.date, a.date);
      LexLeAntisymmetric(a.date, b.date);
      assert WithDate(ys, a.date)[0] == a && WithDate(zs, a.date)[0] == b;
      forall d ensures WithDate(zs[1..], d) == WithDate(ys[1..], d) {
        var head := if a.date == d then [a] else [];
        assert WithDate(ys, d) == head + WithDate(ys[1..], d);
        assert WithDate(zs, d) == head + WithDate(zs[1..], d);
        assert WithDate(ys[1..], d) == WithDate(ys, d)[|head|..];
        assert WithDate(zs[1..], d) == WithDate(zs, d)[|head|..];
      }
      SortedStableUnique(ys[1..], zs[1..]);
      assert ys == [a] + ys[1..] && zs == [b] + zs[1..];
    }
  }

  /** An ordering of the pairs is the one the stable sort gives exactly when it is sorted by
      date and keeps the collected order among equal dates. */
  lemma SortByDateUnique(xs: seq<Occurrence>, ys: seq<Occurrence>)
    ensures ys == SortByDate(xs) <==> SortedByDate(ys) && StableFor(xs, ys)
  {
    SortByDateSorted(xs);
    SortByDateStable(xs);
    if SortedByDate(ys) && StableFor(xs, ys) {
      SortedStableUnique(SortByDate(xs), ys);
    }
  }
}
