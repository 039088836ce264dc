/** What is needed of sequences, sets and multisets in more than one place. */
module Collections {
  ghost predicate NoDuplicates<T>(s: seq<T>) {
    forall i, j | 0 <= i < j < |s| :: s[i] != s[j]
  }

  lemma TakeOut<T>(a: set<T>, x: T)
    requires x in a
    ensures multiset(a) == multiset(a - {x}) + multiset{x}
  {
  }

  lemma PutIn<T>(a: set<T>, x: T)
    requires x !in a
    ensures multiset(a + {x}) == multiset(a) + multiset{x}
  {
  }

  lemma TakeAway<T>(a: multiset<T>, b: multiset<T>, c: multiset<T>, x: T)
    requires a + (multiset{x} + b) == c + multiset{x}
    ensures a + b == c
  {
    forall y: T
      ensures (a + b)[y] == c[y]
    {
      assert (a + (multiset{x} + b))[y] == (c + multiset{x})[y];
    }
  }

  /** The first of a sequence that lists a set once is taken out of both. */
  lemma PopFront<T>(s: seq<T>, a: set<T>)
    requires s != [] && multiset(s) == multiset(a)
    ensures s[0] in a && multiset(s[1..]) == multiset(a - {s[0]})
  {
    var x := s[0];
    assert x in multiset(s);
    TakeOut(a, x);
    assert s == [x] + s[1..];
    assert multiset{} + (multiset{x} + multiset(s[1..])) == multiset(a - {x}) + multiset{x};
    TakeAway(multiset{}, multiset(s[1..]), multiset(a - {x}), x);
  }
}
