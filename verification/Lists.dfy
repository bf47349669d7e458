/** Lists without repetition, and how often the programs of many threads issue something. */
module Lists {

  ghost predicate NoRepeats<T>(xs: seq<T>)
  {
    forall a, b :: 0 <= a < b < |xs| ==> xs[a] != xs[b]
  }

  lemma {:induction false} NothingRepeats<T>()
    ensures NoRepeats<T>([])
  {
  }

  lemma {:induction false} NewLast<T>(xs: seq<T>, x: T)
    requires NoRepeats(xs)
    ensures x !in xs ==> NoRepeats(xs + [x])
  {
    if x !in xs {
      forall a, b | 0 <= a < b < |xs| + 1
        ensures (xs + [x])[a] != (xs + [x])[b]
      {
        assert xs[a] in xs;
      }
    }
  }

  lemma {:induction false} OnceOrNever<T>(xs: seq<T>, x: T)
    requires NoRepeats(xs)
    ensures multiset(xs)[x] == if x in xs then 1 else 0
  {
    if xs != [] {
      var front, last := xs[..|xs| - 1], xs[|xs| - 1];
      assert xs == front + [last];
      OnceOrNever(front, x);
    }
  }

  lemma {:induction false} SameMultiset<T>(a: seq<T>, b: seq<T>)
    requires NoRepeats(a) && NoRepeats(b) && forall x :: x in a <==> x in b
    ensures multiset(a) == multiset(b)
  {
    forall x
      ensures multiset(a)[x] == multiset(b)[x]
    {
      OnceOrNever(a, x);
      OnceOrNever(b, x);
    }
  }

  /** How often the logs of all threads together contain x. */
  ghost function Occurrences<T>(logs: seq<seq<T>>, x: T): nat
  {
    if logs == [] then 0 else Occurrences(logs[..|logs| - 1], x) + multiset(logs[|logs| - 1])[x]
  }

  /** What exactly one thread issues, once, occurs once; the rest never. */
  lemma {:induction false} OccursOnce<T>(logs: seq<seq<T>>, x: T, issued: bool, owner: nat)
    requires forall t :: 0 <= t < |logs| ==> NoRepeats(logs[t]) && (x in logs[t] <==> issued && t == owner)
    ensures Occurrences(logs, x) == if issued && owner < |logs| then 1 else 0
  {
    if logs != [] {
      var n := |logs| - 1;
      OccursOnce(logs[..n], x, issued, owner);
      OnceOrNever(logs[n], x);
    }
  }
}
