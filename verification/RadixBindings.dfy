/**
 Which bindings survive a search. A branch that fails has bound and unbound the names on it, also names
 that the pattern found in the end had bound before; what is left is read off the patterns in the tree.
 */
module RadixBindings {
  import opened Wrappers
  import opened RadixTree
  import opened RadixSearch

  lemma {:induction false} LessAsymmetric(a: string, b: string)
    requires Less(a, b)
    ensures !Less(b, a)
  {
    if a != "" && a[0] == b[0] { LessAsymmetric(a[1..], b[1..]); }
  }

  // ------------------------------------------------------- names tried

  /** The pieces match the first segments of the path one by one. */
  predicate Walks(p: Pattern, path: string)
    decreases |p|
  {
    p == [] || (Seg(path) != "" && (p[0].Param? || p[0] == Static(Seg(path))) && Walks(p[1..], Rest(path)))
  }

  /** The search gets as far as binding `n` on the branch `p`. */
  ghost predicate Tries(node: Node, p: Pattern, path: string, depth: nat, n: string) {
    && p != [] && p[|p| - 1] == Param(n)
    && EntryAt(node, p).Some?
    && Walks(p, path)
    && depth + |p| - 1 <= MAX_SEGMENTS
  }

  predicate HasChild(node: Node, piece: Piece) {
    match piece
    case Static(s) => Lookup(node.children, s).Some?
    case Param(n) => Lookup(node.params, n).Some?
    case Wild(n) => false
  }

  lemma {:induction false} TriesBelow(node: Node, piece: Piece, p: Pattern, path: string, depth: nat, n: string)
    requires HasChild(node, piece) && Walks([piece], path)
    ensures p != [] ==>
              (Tries(node, [piece] + p, path, depth, n) <==> Tries(Child(node, piece), p, Rest(path), depth + 1, n))
    ensures Tries(node, [piece], path, depth, n) <==> piece == Param(n) && depth <= MAX_SEGMENTS
  {
    assert ([piece] + p)[1..] == p && [piece][1..] == [];
    assert EntryAt(node, [piece]) == EntryAt(Child(node, piece), []);
  }

  /** How a branch that is tried begins. */
  lemma {:induction false} TriesBegins(node: Node, p: Pattern, path: string, depth: nat, n: string)
    requires Tries(node, p, path, depth, n)
    ensures HasChild(node, p[0]) && Walks([p[0]], path) && depth <= MAX_SEGMENTS
    ensures |p| == 1 ==> p[0] == Param(n)
    ensures |p| > 1 ==> Tries(Child(node, p[0]), p[1..], Rest(path), depth + 1, n)
  {
    assert p == [p[0]] + p[1..] && [p[0]][1..] == [];
    if |p| > 1 { TriesBelow(node, p[0], p[1..], path, depth, n); }
  }

  lemma {:induction false} TriedInHas(kids: seq<Kid>, rest: string, depth: nat, n: string) returns (k: nat)
    requires n in TriedIn(kids, rest, depth)
    ensures k < |kids| && (kids[k].name == n || n in Tried(kids[k].node, rest, depth + 1))
  {
    if kids[0].name == n || n in Tried(kids[0].node, rest, depth + 1) {
      k := 0;
    } else {
      k := TriedInHas(kids[1..], rest, depth, n);
      k := k + 1;
    }
  }

  lemma {:induction false} TriedInFrom(kids: seq<Kid>, rest: string, depth: nat, n: string, k: nat)
    requires k < |kids| && (kids[k].name == n || n in Tried(kids[k].node, rest, depth + 1))
    ensures n in TriedIn(kids, rest, depth)
  {
    if k > 0 { TriedInFrom(kids[1..], rest, depth, n, k - 1); }
  }

  /** A name tried below a parameter child. */
  lemma {:induction false} KidTries(node: Node, k: nat, path: string, depth: nat, n: string) returns (p: Pattern)
    requires Ordered(node) && k < |node.params| && Seg(path) != "" && depth <= MAX_SEGMENTS
    requires node.params[k].name == n || n in Tried(node.params[k].node, Rest(path), depth + 1)
    ensures Tries(node, p, path, depth, n) && p[0] == Param(node.params[k].name)
    decreases node, 0
  {
    var kid := node.params[k];
    SortedIndex(node.params, k);
    assert [Param(kid.name)][1..] == [];
    if kid.name == n {
      p := [Param(n)];
      TriesBelow(node, p[0], [], path, depth, n);
    } else {
      p := TriedHas(kid.node, Rest(path), depth + 1, n);
      TriesBelow(node, Param(kid.name), p, path, depth, n);
      p := [Param(kid.name)] + p;
    }
  }

  lemma {:induction false} StaticTries(node: Node, path: string, depth: nat, n: string) returns (p: Pattern)
    requires Ordered(node) && Seg(path) != "" && depth <= MAX_SEGMENTS && n in TriedStatic(node, path, depth)
    ensures Tries(node, p, path, depth, n) && p[0] == Static(Seg(path))
    decreases node, 0
  {
    var i := Index(node.children, Seg(path));
    assert [Static(Seg(path))][1..] == [];
    p := TriedHas(node.children[i].node, Rest(path), depth + 1, n);
    TriesBelow(node, Static(Seg(path)), p, path, depth, n);
    p := [Static(Seg(path))] + p;
  }

  /** A failed search has tried a name if and only if some branch that the path follows ends in it. */
  lemma {:induction false} TriedHas(node: Node, path: string, depth: nat, n: string) returns (p: Pattern)
    requires Ordered(node) && n in Tried(node, path, depth)
    ensures Tries(node, p, path, depth, n)
    decreases node, 1
  {
    if n in TriedStatic(node, path, depth) {
      p := StaticTries(node, path, depth, n);
    } else {
      var k := TriedInHas(node.params, Rest(path), depth, n);
      p := KidTries(node, k, path, depth, n);
    }
  }

  lemma {:induction false} TriesIsTried(node: Node, p: Pattern, path: string, depth: nat, n: string)
    requires Tries(node, p, path, depth, n)
    ensures n in Tried(node, path, depth)
    decreases |p|
  {
    TriesBegins(node, p, path, depth, n);
    if |p| > 1 { TriesIsTried(Child(node, p[0]), p[1..], Rest(path), depth + 1, n); }
    if p[0].Param? { TriedInFrom(node.params, Rest(path), depth, n, Index(node.params, p[0].name)); }
  }

  // ------------------------------------------- names tried before a piece

  lemma BeforeHas(node: Node, piece: Piece, path: string, depth: nat, n: string) returns (p: Pattern)
    requires Ordered(node) && depth <= MAX_SEGMENTS && n in TriedBefore(node, piece, path, depth)
    requires piece.Param? ==> HasChild(node, piece)
    ensures Tries(node, p, path, depth, n) && Prefers(p[0], piece)
  {
    if n in TriedStatic(node, path, depth) {
      p := StaticTries(node, path, depth, n);
    } else {
      var kids := if piece.Param? then node.params[..Index(node.params, piece.name)] else node.params;
      var k := TriedInHas(kids, Rest(path), depth, n);
      p := KidTries(node, k, path, depth, n);
      assert piece.Param? ==> Less(node.params[k].name, node.params[Index(node.params, piece.name)].name);
    }
  }

  lemma {:induction false} BeforeFrom(node: Node, piece: Piece, p: Pattern, path: string, depth: nat, n: string)
    requires Ordered(node) && Tries(node, p, path, depth, n) && Prefers(p[0], piece)
    requires piece.Param? ==> HasChild(node, piece)
    ensures n in TriedBefore(node, piece, path, depth)
  {
    TriesBegins(node, p, path, depth, n);
    if |p| > 1 { TriesIsTried(Child(node, p[0]), p[1..], Rest(path), depth + 1, n); }
    if p[0].Param? {
      var k := Index(node.params, p[0].name);
      if piece.Param? {
        var j := Index(node.params, piece.name);
        LessAsymmetric(p[0].name, piece.name);
        LessIrreflexive(piece.name);
        assert k < j;
        TriedInFrom(node.params[..j], Rest(path), depth, n, k);
      } else {
        TriedInFrom(node.params, Rest(path), depth, n, k);
      }
    }
  }

  // ------------------------------------------------- bindings that are lost

  /** Branch `p` leaves `q` at piece `i` for a preferred one, and goes on to bind `n`. */
  ghost predicate DropsAt(node: Node, q: Pattern, path: string, depth: nat, n: string, p: Pattern, i: nat) {
    && i < |q| && i < |p| && p[..i] == q[..i]
    && Prefers(p[i], q[i])
    && Tries(node, p, path, depth, n)
  }

  /** `n` is dropped at piece `from` of `q` or later. */
  ghost predicate Drops(node: Node, q: Pattern, path: string, depth: nat, n: string, from: nat) {
    exists p: Pattern, i: nat :: from <= i && DropsAt(node, q, path, depth, n, p, i)
  }

  lemma {:induction false} DropsLater(node: Node, q: Pattern, path: string, depth: nat, n: string, p: Pattern, i: nat)
    requires |q| > 1 && HasChild(node, q[0]) && Walks([q[0]], path)
    ensures DropsAt(Child(node, q[0]), q[1..], Rest(path), depth + 1, n, p, i) <==>
              DropsAt(node, q, path, depth, n, [q[0]] + p, i + 1)
  {
    var p' := [q[0]] + p;
    if i < |p| && i < |q[1..]| {
      assert q[..i + 1] == [q[0]] + q[1..][..i] && p'[..i + 1] == [q[0]] + p[..i];
      assert p[..i] == p'[..i + 1][1..] && q[1..][..i] == q[..i + 1][1..];
      TriesBelow(node, q[0], p, path, depth, n);
    }
  }

  /** Dropped at the first piece, or later below it. */
  lemma {:induction false} DropsStep(node: Node, q: Pattern, path: string, depth: nat, n: string, from: nat)
    requires Ordered(node) && Candidate(node, q, path, depth) && q != []
    ensures Drops(node, q, path, depth, n, 0) <==>
              n in TriedBefore(node, q[0], path, depth) || Drops(node, q, path, depth, n, 1)
    ensures Drops(node, q, path, depth, n, from + 1) <==>
              Drops(Child(node, q[0]), q[1..], Rest(path), depth + 1, n, from)
  {
    FirstDrop(node, q, path, depth, n);
    LaterDrop(node, q, path, depth, n, from);
  }

  lemma {:induction false} FirstDrop(node: Node, q: Pattern, path: string, depth: nat, n: string)
    requires Ordered(node) && Candidate(node, q, path, depth) && q != []
    ensures Drops(node, q, path, depth, n, 0) <==>
              n in TriedBefore(node, q[0], path, depth) || Drops(node, q, path, depth, n, 1)
  {
    if n in TriedBefore(node, q[0], path, depth) {
      var p := BeforeHas(node, q[0], path, depth, n);
      assert DropsAt(node, q, path, depth, n, p, 0);
    }
    if Drops(node, q, path, depth, n, 0) && !Drops(node, q, path, depth, n, 1) {
      var p: Pattern, i: nat :| DropsAt(node, q, path, depth, n, p, i);
      BeforeFrom(node, q[0], p, path, depth, n);
    }
  }

  lemma {:induction false} LaterBegins(node: Node, q: Pattern, path: string, depth: nat)
    requires Candidate(node, q, path, depth) && |q| > 1
    ensures HasChild(node, q[0]) && Walks([q[0]], path)
  {
    assert [q[0]][1..] == [];
  }

  lemma SameBeginning(node: Node, q: Pattern, path: string, depth: nat, n: string, p: Pattern, i: nat)
    requires i > 0 && DropsAt(node, q, path, depth, n, p, i)
    ensures p != [] && p == [q[0]] + p[1..]
  {
    assert p[0] == p[..i][0] == q[..i][0] == q[0];
  }

  lemma LaterDrop(node: Node, q: Pattern, path: string, depth: nat, n: string, from: nat)
    requires Candidate(node, q, path, depth) && q != []
    ensures Drops(node, q, path, depth, n, from + 1) <==>
              Drops(Child(node, q[0]), q[1..], Rest(path), depth + 1, n, from)
  {
    if |q| > 1 {
      hide DropsAt;
      LaterBegins(node, q, path, depth);
      if Drops(node, q, path, depth, n, from + 1) {
        var p: Pattern, i: nat :| from + 1 <= i && DropsAt(node, q, path, depth, n, p, i);
        SameBeginning(node, q, path, depth, n, p, i);
        DropsLater(node, q, path, depth, n, p[1..], i - 1);
      }
      if Drops(Child(node, q[0]), q[1..], Rest(path), depth + 1, n, from) {
        var p: Pattern, i: nat :| from <= i && DropsAt(Child(node, q[0]), q[1..], Rest(path), depth + 1, n, p, i);
        DropsLater(node, q, path, depth, n, p, i);
      }
    }
  }

  // ------------------------------------------------------ what is left

  predicate Binds(q: Pattern, n: string) {
    q != [] && ((!q[0].Static? && q[0].name == n) || Binds(q[1..], n))
  }

  /** The last piece that binds `n`. */
  function LastBound(q: Pattern, n: string): (b: nat)
    requires Binds(q, n)
    ensures b < |q| && !q[b].Static? && q[b].name == n
  {
    if Binds(q[1..], n) then 1 + LastBound(q[1..], n) else 0
  }

  /** What a pattern binds alone: its own names, each to the text of the last piece of that name. */
  lemma {:induction false} BindHas(q: Pattern, path: string, n: string)
    requires Bind(q, path).Some? && Proper(q)
    ensures n in Bind(q, path).value <==> Binds(q, n)
    decreases |q|
  {
    if q != [] && !q[0].Wild? { BindHas(q[1..], Rest(path), n); }
  }

  /**
   A binding is gone if and only if it is dropped after the last piece of its name; what was there
   before, if it is dropped at all.
   */
  ghost predicate AfterIsRight(node: Node, q: Pattern, path: string, depth: nat, params: Params, n: string)
    requires Bind(q, path).Some?
  {
    var after := After(node, q, path, depth, params);
    if Binds(q, n) then
      && (n in after <==> !Drops(node, q, path, depth, n, LastBound(q, n) + 1))
      && (n in after ==> n in Bind(q, path).value && after[n] == Bind(q, path).value[n])
    else
      && (n in after <==> n in params && !Drops(node, q, path, depth, n, 0))
      && (n in after ==> after[n] == params[n])
  }

  lemma {:induction false} AfterIs(node: Node, q: Pattern, path: string, depth: nat, params: Params, n: string)
    requires Ordered(node) && Candidate(node, q, path, depth) && Proper(q)
    ensures AfterIsRight(node, q, path, depth, params, n)
    decreases |q|
  {
    if q != [] {
      var child, others := Child(node, q[0]), q[1..];
      var params1 := BindPiece(params - TriedBefore(node, q[0], path, depth), q[0], path);
      if q[0].Wild? {
        WildIs(node, q, path, depth, params, n);
      } else {
        CandidateBelow(node, q, path, depth);
        AfterIs(child, others, Rest(path), depth + 1, params1, n);
        BindHas(others, Rest(path), n);
        DropsStep(node, q, path, depth, n, 0);
        if Binds(others, n) {
          DropsStep(node, q, path, depth, n, LastBound(others, n) + 1);
        }
      }
    }
  }

  lemma {:induction false} CandidateBelow(node: Node, q: Pattern, path: string, depth: nat)
    requires Ordered(node) && Candidate(node, q, path, depth) && q != [] && !q[0].Wild?
    ensures Ordered(Child(node, q[0])) && Candidate(Child(node, q[0]), q[1..], Rest(path), depth + 1)
  {
  }

  lemma {:induction false} WildIs(node: Node, q: Pattern, path: string, depth: nat, params: Params, n: string)
    requires Ordered(node) && Candidate(node, q, path, depth) && |q| == 1 && q[0].Wild?
    ensures AfterIsRight(node, q, path, depth, params, n)
  {
    AfterOne(node, q, path, depth, params);
    DropsStep(node, q, path, depth, n, 0);
  }

  // ------------------------------------------------------------ what a binding means

  /** A piece with the value of its name, as a segment or a rest of a path. */
  function FilledPiece(x: Piece, b: Params): string {
    if x.Static? then x.text else if x.name in b then b[x.name] else ""
  }

  /** A pattern with values for its names, as a path. */
  function Filled(q: Pattern, b: Params): string {
    if q == [] then "" else "/" + FilledPiece(q[0], b) + Filled(q[1..], b)
  }

  /** Values that a request can have: a segment for a parameter, any rest of a path for a wildcard. */
  predicate HasValue(x: Piece, b: Params) {
    match x
    case Static(_) => true
    case Param(n) => n in b && IsSegment(b[n])
    case Wild(n) => n in b && (b[n] == "" || b[n][0] != '/')
  }

  /** The values of a pattern's own names. */
  function ValuesOf(q: Pattern, b: Params): Params {
    map n | n in b && Binds(q, n) :: b[n]
  }

  lemma {:induction false} ValuesStep(q: Pattern, b: Params)
    requires q != [] && HasValue(q[0], b)
    ensures ValuesOf(q, b) ==
            if q[0].Static? then ValuesOf(q[1..], b) else map[q[0].name := b[q[0].name]] + ValuesOf(q[1..], b)
  {
  }

  /** The path made of a pattern and values for its names binds the names to those values. */
  lemma {:induction false} BindFilled(q: Pattern, b: Params)
    requires IsPattern(q) && forall x | x in q :: HasValue(x, b)
    ensures Bind(q, Filled(q, b)) == Some(ValuesOf(q, b))
  {
    hide Seg;
    hide Rest;
    hide ValuesOf;
    if q == [] {
      NoSegment("");
      NoValues(b);
    } else {
      var x, others := q[0], q[1..];
      assert x in q && forall y | y in others :: y in q;
      BindFilled(others, b);
      ValuesStep(q, b);
      if x.Wild? {
        assert others == [];
        NoValues(b);
        assert map[x.name := b[x.name]] + map[] == map[x.name := b[x.name]];
        WildFilled(b[x.name]);
      } else {
        assert Filled(others, b) == "" || Filled(others, b)[0] == '/';
        SegOf(FilledPiece(x, b), Filled(others, b));
      }
    }
  }

  lemma NoValues(b: Params)
    ensures ValuesOf([], b) == map[]
  {
  }

  lemma WildFilled(value: string)
    requires value == "" || value[0] != '/'
    ensures var path := "/" + value + ""; value == if Seg(path) == "" then "" else Seg(path) + Rest(path)
  {
    var path := "/" + value + "";
    assert Skip(path) == value;
  }
}
