/** The multiset of selected elements of a list. */
module Bags {

  function Bag<T>(items: seq<T>, which: set<nat>, n: nat): multiset<T>
    requires n <= |items|
  {
    if n == 0 then multiset{}
    else if n - 1 in which then Bag(items, which, n - 1) + multiset{items[n - 1]}
    else Bag(items, which, n - 1)
  }

  lemma Shuffle<T>(a: multiset<T>, b: multiset<T>, c: multiset<T>)
    ensures a + b + c == a + c + b
  {
  }

  lemma {:induction false} BagAdd<T>(items: seq<T>, which: set<nat>, i: nat, n: nat)
    requires n <= |items| && i !in which
    ensures i >= n ==> Bag(items, which + {i}, n) == Bag(items, which, n)
    ensures i < n ==> Bag(items, which + {i}, n) == Bag(items, which, n) + multiset{items[i]}
  {
    if n > 0 {
      BagAdd(items, which, i, n - 1);
      if i < n - 1 {
        Shuffle(Bag(items, which, n - 1), multiset{items[i]}, multiset{items[n - 1]});
      }
    }
  }

  lemma {:induction false} BagHas<T>(items: seq<T>, which: set<nat>, n: nat, x: T)
    requires n <= |items|
    ensures x in Bag(items, which, n) <==> exists i :: i in which && i < n && items[i] == x
  {
    if n > 0 { BagHas(items, which, n - 1, x); }
  }

  lemma {:induction false} BagEmpty<T>(items: seq<T>, n: nat)
    requires n <= |items|
    ensures Bag(items, {}, n) == multiset{}
  {
    if n > 0 { BagEmpty(items, n - 1); }
  }

  /** A list without repetitions holds each element at most once. */
  lemma {:induction false} BagOnce<T>(items: seq<T>, which: set<nat>, n: nat, x: T)
    requires n <= |items| && forall i, j :: 0 <= i < j < |items| ==> items[i] != items[j]
    ensures Bag(items, which, n)[x] <= 1
    ensures Bag(items, which, n)[x] > 0 ==> exists i :: 0 <= i < n && items[i] == x
  {
    if n > 0 { BagOnce(items, which, n - 1, x); }
  }

  lemma {:induction false} BagMono<T>(items: seq<T>, some: set<nat>, more: set<nat>, n: nat)
    requires n <= |items| && some <= more
    ensures Bag(items, some, n) <= Bag(items, more, n)
  {
    if n > 0 { BagMono(items, some, more, n - 1); }
  }
}
