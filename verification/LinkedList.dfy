/** Intrusive lists: nodes by number, each with a link to the next. */
module LinkedList {
  type Node = nat

  datatype Link = Nil | To(node: Node)

  function At(s: seq<Node>, i: nat): Link {
    if i < |s| then To(s[i]) else Nil
  }

  /** The links starting at `from` spell out `s`. */
  ghost predicate IsList(next: map<Node, Link>, from: Link, s: seq<Node>) {
    && from == At(s, 0)
    && forall i :: 0 <= i < |s| ==> s[i] in next && next[s[i]] == At(s, i + 1)
  }

  /** Writing the link of a node outside a list leaves the list as it was. */
  lemma WriteOutside(next: map<Node, Link>, next': map<Node, Link>, n: Node, from: Link, s: seq<Node>)
    requires IsList(next, from, s) && n !in s
    requires forall m :: m in next && m != n ==> m in next' && next'[m] == next[m]
    ensures IsList(next', from, s)
  {
  }

  /** Pushing onto a list that the new node is not in. */
  lemma PushOnList(next: map<Node, Link>, top: Link, s: seq<Node>, n: Node)
    requires IsList(next, top, s) && n !in s
    ensures IsList(next[n := top], To(n), [n] + s)
  {
  }

  /** The list behind its first node. */
  lemma PopOffList(next: map<Node, Link>, s: seq<Node>)
    requires IsList(next, At(s, 0), s) && s != []
    ensures s[0] in next && IsList(next, next[s[0]], s[1..])
  {
  }

  function Tail(s: seq<Node>): seq<Node> {
    if s == [] then [] else s[1..]
  }

  function Reverse(s: seq<Node>): seq<Node> {
    if s == [] then [] else Reverse(s[1..]) + [s[0]]
  }

  lemma {:induction false} ReverseKeepsElements(s: seq<Node>)
    ensures multiset(Reverse(s)) == multiset(s)
  {
    if s != [] {
      ReverseKeepsElements(s[1..]);
      assert s == [s[0]] + s[1..];
    }
  }
}
