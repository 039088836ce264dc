/**
 What the radix search computes: the best of the registered patterns that match the path,
 each considered on its own.
 */
module RadixSearch {
  import opened Wrappers
  import opened RadixTree

  // --------------------------------------------------- one pattern, alone

  /** Matches one pattern against a path and returns its bindings. */
  function Bind(p: Pattern, path: string): Option<Params>
    decreases |p|
  {
    var seg := Seg(path);
    if p == [] then if seg == "" then Some(map[]) else None
    else
      match p[0]
      case Wild(n) => Some(map[n := if seg == "" then "" else seg + Rest(path)])
      case Static(s) => if seg != "" && s == seg then Bind(p[1..], Rest(path)) else None
      case Param(n) =>
        if seg == "" then None
        else match Bind(p[1..], Rest(path))
             case None => None
             case Some(b) => Some(map[n := seg] + b)
  }

  /** How many segments come before the end or the wildcard. */
  function Length(p: Pattern): nat {
    if p == [] || p[0].Wild? then 0 else 1 + Length(p[1..])
  }

  /** At the first place where two patterns differ: static before parameter before wildcard, then by name. */
  predicate Prefers(a: Piece, b: Piece) {
    match (a, b)
    case (Static(_), Param(_)) => true
    case (Static(_), Wild(_)) => true
    case (Param(_), Wild(_)) => true
    case (Param(x), Param(y)) => Less(x, y)
    case (Wild(x), Wild(y)) => Less(x, y)
    case _ => false
  }

  /** `p` is `q` or is preferred to it; a wildcard is preferred to the end of a pattern. */
  predicate AtLeast(p: Pattern, q: Pattern) {
    if p == [] then q == []
    else if q == [] then p[0].Wild?
    else if p[0] == q[0] then AtLeast(p[1..], q[1..])
    else Prefers(p[0], q[0])
  }

  // ------------------------------------------------- patterns in the tree

  /** The entry at the end of a pattern's branch. */
  function EntryAt(node: Node, p: Pattern): Option<Entry>
    decreases |p|
  {
    if p == [] then Some(node.entry)
    else
      match p[0]
      case Static(s) => (match Lookup(node.children, s) case None => None case Some(c) => EntryAt(c, p[1..]))
      case Param(n) => (match Lookup(node.params, n) case None => None case Some(c) => EntryAt(c, p[1..]))
      case Wild(n) => if |p| > 1 then None
                      else match Lookup(node.wilds, n) case None => None case Some(c) => Some(c.entry)
  }

  /** A pattern with a route in the tree that matches the path within the depth limit. */
  ghost predicate Candidate(node: Node, p: Pattern, path: string, depth: nat) {
    && EntryAt(node, p).Some? && EntryAt(node, p).value.methods != {}
    && depth + Length(p) <= MAX_SEGMENTS
    && Bind(p, path).Some?
  }

  ghost predicate NoCandidate(node: Node, path: string, depth: nat) {
    forall p :: !Candidate(node, p, path, depth)
  }

  ghost predicate Sorted(kids: seq<Kid>) {
    forall i, j :: 0 <= i < j < |kids| ==> Less(kids[i].name, kids[j].name)
  }

  /** Every map is in order, throughout the tree. */
  ghost predicate Ordered(node: Node)
    decreases node, 1
  {
    && Sorted(node.children) && Sorted(node.params) && Sorted(node.wilds)
    && AllOrdered(node.children) && AllOrdered(node.params) && AllOrdered(node.wilds)
  }

  ghost predicate AllOrdered(kids: seq<Kid>)
    decreases kids, 0
  {
    forall i :: 0 <= i < |kids| ==> Ordered(kids[i].node)
  }

  // --------------------------------------- what a search does to `params`

  /** The names that a failed search below a node binds and unbinds again. */
  function Tried(node: Node, path: string, depth: nat): set<string>
    decreases node, 1
  {
    if depth > MAX_SEGMENTS || Seg(path) == "" then {}
    else TriedStatic(node, path, depth) + TriedIn(node.params, Rest(path), depth)
  }

  function TriedStatic(node: Node, path: string, depth: nat): set<string>
    decreases node, 0
  {
    var i := Index(node.children, Seg(path));
    if i < |node.children| then Tried(node.children[i].node, Rest(path), depth + 1) else {}
  }

  function TriedIn(kids: seq<Kid>, rest: string, depth: nat): set<string>
    decreases kids, 0
  {
    if kids == [] then {} else {kids[0].name} + Tried(kids[0].node, rest, depth + 1) + TriedIn(kids[1..], rest, depth)
  }

  /** The names tried at a node before the search turns to a piece: those below the branches preferred to it. */
  function TriedBefore(node: Node, piece: Piece, path: string, depth: nat): set<string> {
    if Seg(path) == "" then {}
    else
      match piece
      case Static(_) => {}
      case Param(n) => TriedStatic(node, path, depth) + TriedIn(node.params[..Index(node.params, n)], Rest(path), depth)
      case Wild(_) => TriedStatic(node, path, depth) + TriedIn(node.params, Rest(path), depth)
  }

  function Child(node: Node, piece: Piece): Node {
    match piece
    case Static(s) => ChildOr(node.children, s)
    case Param(n) => ChildOr(node.params, n)
    case Wild(n) => ChildOr(node.wilds, n)
  }

  /** The text that a piece is bound to. */
  function Taken(piece: Piece, path: string): string {
    if Seg(path) == "" then "" else if piece.Wild? then Seg(path) + Rest(path) else Seg(path)
  }

  function BindPiece(params: Params, piece: Piece, path: string): Params {
    if piece.Static? then params else params[piece.name := Taken(piece, path)]
  }

  /**
   `params` as a search that ends in `q` leaves it: at every piece the names tried before it are
   gone, then it is bound.
   */
  function After(node: Node, q: Pattern, path: string, depth: nat, params: Params): Params
    decreases |q|
  {
    if q == [] then params
    else
      var left := params - TriedBefore(node, q[0], path, depth);
      After(Child(node, q[0]), q[1..], Rest(path), depth + 1, BindPiece(left, q[0], path))
  }

  // ------------------------------------------------------------ the search

  lemma {:induction false} LessIrreflexive(a: string)
    ensures !Less(a, a)
  {
    if a != "" { LessIrreflexive(a[1..]); }
  }

  lemma {:induction false} SortedIndex(kids: seq<Kid>, i: nat)
    requires Sorted(kids) && i < |kids|
    ensures Index(kids, kids[i].name) == i && Lookup(kids, kids[i].name) == Some(kids[i].node)
  {
    LessIrreflexive(kids[i].name);
  }

  /**
   The result of a search is the best candidate, and `params` as `After` says; a failed search loses
   the names it tried.
   */
  ghost predicate IsBest(node: Node, path: string, params: Params, depth: nat, e: Option<Entry>, params': Params,
                         q: Pattern)
  {
    match e
    case None => params' == params - Tried(node, path, depth) && NoCandidate(node, path, depth)
    case Some(_) =>
      && Candidate(node, q, path, depth)
      && e == EntryAt(node, q)
      && params' == After(node, q, path, depth, params)
      && forall p :: Candidate(node, p, path, depth) ==> AtLeast(q, p)
  }

  lemma {:induction false} MatchIsBest(node: Node, path: string, params: Params, depth: nat) returns (q: Pattern)
    requires Ordered(node)
    ensures var (e, params') := Match(node, path, params, depth); IsBest(node, path, params, depth, e, params', q)
    decreases node, 1
  {
    q := [];
    if depth > MAX_SEGMENTS {
      assert params - {} == params;
    } else if Seg(path) == "" {
      q := EndIsBest(node, path, params, depth);
    } else {
      var seg, rest := Seg(path), Rest(path);
      var i := Index(node.children, seg);
      var qs: Pattern := [];
      if i < |node.children| {
        qs := MatchIsBest(node.children[i].node, rest, params, depth + 1);
      }
      var params1 := params - TriedStatic(node, path, depth);
      var j, qp := ParamsAreBest(node.params, seg, rest, params1, depth);
      q := PickBranch(node, path, params, depth, qs, j, qp);
    }
  }

  /** The loop over the parameter children finds the first with a candidate, and its best one. */
  ghost predicate ParamsBest(kids: seq<Kid>, seg: string, rest: string, params: Params, depth: nat, e: Option<Entry>,
                             params': Params, j: nat, q: Pattern)
  {
    match e
    case None =>
      && params' == params - TriedIn(kids, rest, depth)
      && forall k :: 0 <= k < |kids| ==> NoCandidate(kids[k].node, rest, depth + 1)
    case Some(_) =>
      && j < |kids|
      && IsBest(kids[j].node, rest, (params - TriedIn(kids[..j], rest, depth))[kids[j].name := seg], depth + 1,
                e, params', q)
      && forall k :: 0 <= k < j ==> NoCandidate(kids[k].node, rest, depth + 1)
  }

  lemma {:induction false} ParamsAreBest(kids: seq<Kid>, seg: string, rest: string, params: Params, depth: nat)
    returns (j: nat, q: Pattern)
    requires AllOrdered(kids)
    ensures var (e, params') := MatchParams(kids, seg, rest, params, depth);
            ParamsBest(kids, seg, rest, params, depth, e, params', j, q)
    decreases kids, 0
  {
    hide IsBest;
    hide ParamsBest;
    j, q := 0, [];
    if kids == [] {
      NoKid(seg, rest, params, depth);
    } else {
      var kid := kids[0];
      q := MatchIsBest(kid.node, rest, params[kid.name := seg], depth + 1);
      var (e, params') := Match(kid.node, rest, params[kid.name := seg], depth + 1);
      FirstKid(kids, seg, rest, params, depth, e, params', q);
      if e == None {
        var params1 := params - ({kid.name} + Tried(kid.node, rest, depth + 1));
        j, q := ParamsAreBest(kids[1..], seg, rest, params1, depth);
        var (f, params2) := MatchParams(kids[1..], seg, rest, params1, depth);
        LaterKid(kids, seg, rest, params, depth, f, params2, j, q);
        j := j + 1;
      }
    }
  }

  lemma NoKid(seg: string, rest: string, params: Params, depth: nat)
    ensures ParamsBest([], seg, rest, params, depth, None, params, 0, [])
  {
    assert params - {} == params;
  }

  lemma {:induction false} FirstKid(kids: seq<Kid>, seg: string, rest: string, params: Params, depth: nat,
                                    e: Option<Entry>, params': Params, q: Pattern)
    requires kids != [] && IsBest(kids[0].node, rest, params[kids[0].name := seg], depth + 1, e, params', q)
    ensures e.Some? ==> ParamsBest(kids, seg, rest, params, depth, e, params', 0, q)
    ensures e == None ==>
              && NoCandidate(kids[0].node, rest, depth + 1)
              && params' - {kids[0].name} == params - ({kids[0].name} + Tried(kids[0].node, rest, depth + 1))
  {
    hide Candidate;
    hide Tried;
    assert params - TriedIn(kids[..0], rest, depth) == params;
  }

  lemma LaterKid(kids: seq<Kid>, seg: string, rest: string, params: Params, depth: nat, e: Option<Entry>,
                 params': Params, j: nat, q: Pattern)
    requires kids != [] && NoCandidate(kids[0].node, rest, depth + 1)
    requires ParamsBest(kids[1..], seg, rest, params - ({kids[0].name} + Tried(kids[0].node, rest, depth + 1)),
                        depth, e, params', j, q)
    ensures ParamsBest(kids, seg, rest, params, depth, e, params', j + 1, q)
  {
    hide IsBest;
    hide NoCandidate;
    hide Tried;
    hide TriedIn;
    SkipKid(kids, rest, params, depth, j);
    assert forall k :: 0 < k < |kids| ==> kids[k] == kids[1..][k - 1];
  }

  lemma {:induction false} SkipKid(kids: seq<Kid>, rest: string, params: Params, depth: nat, j: nat)
    requires kids != []
    ensures var params1 := params - ({kids[0].name} + Tried(kids[0].node, rest, depth + 1));
            && params1 - TriedIn(kids[1..], rest, depth) == params - TriedIn(kids, rest, depth)
            && (j < |kids[1..]| ==>
               params1 - TriedIn(kids[1..][..j], rest, depth) == params - TriedIn(kids[..j + 1], rest, depth))
  {
    if j < |kids[1..]| {
      assert kids[..j + 1][0] == kids[0] && kids[..j + 1][1..] == kids[1..][..j];
    }
  }

  /** Candidates below the child that a static segment or a parameter leads to. */
  lemma {:induction false} ExtendCandidate(node: Node, piece: Piece, child: Node, p: Pattern, path: string, depth: nat)
    requires Seg(path) != ""
    requires piece.Static? ==> piece.text == Seg(path) && Lookup(node.children, piece.text) == Some(child)
    requires piece.Param? ==> Lookup(node.params, piece.name) == Some(child)
    requires !piece.Wild?
    ensures Candidate(node, [piece] + p, path, depth) <==> Candidate(child, p, Rest(path), depth + 1)
    ensures EntryAt(node, [piece] + p) == EntryAt(child, p)
  {
    assert ([piece] + p)[1..] == p;
  }

  /** How a candidate for a nonempty segment begins. */
  lemma CandidateBegins(node: Node, p: Pattern, path: string, depth: nat) returns (k: nat)
    requires Candidate(node, p, path, depth) && Seg(path) != ""
    ensures p != [] && match p[0]
            case Static(s) => s == Seg(path) && k < |node.children| && k == Index(node.children, s)
                              && Candidate(node.children[k].node, p[1..], Rest(path), depth + 1)
            case Param(n) => k < |node.params| && node.params[k].name == n
                             && Lookup(node.params, n) == Some(node.params[k].node)
                             && Candidate(node.params[k].node, p[1..], Rest(path), depth + 1)
            case Wild(n) => p == [Wild(n)] && k < |node.wilds| && node.wilds[k].name == n
                            && node.wilds[k].node.entry.methods != {}
  {
    assert p == [p[0]] + p[1..];
    match p[0]
    case Static(s) =>
      k := Index(node.children, s);
      ExtendCandidate(node, p[0], node.children[k].node, p[1..], path, depth);
    case Param(n) => k := Index(node.params, n); ExtendCandidate(node, p[0], node.params[k].node, p[1..], path, depth);
    case Wild(n) => k := Index(node.wilds, n);
  }

  /** The first wildcard child with a route is a candidate and preferred to any other wildcard. */
  lemma {:induction false} FirstWildIsBest(node: Node, path: string, depth: nat, q: Pattern)
    requires Sorted(node.wilds) && depth <= MAX_SEGMENTS
    requires var w := FirstWild(node.wilds); w < |node.wilds| && q == [Wild(node.wilds[w].name)]
    ensures Candidate(node, q, path, depth) && EntryAt(node, q) == Some(node.wilds[FirstWild(node.wilds)].node.entry)
    ensures forall k :: 0 <= k < |node.wilds| && node.wilds[k].node.entry.methods != {} ==>
              AtLeast(q, [Wild(node.wilds[k].name)])
  {
    var w := FirstWild(node.wilds);
    SortedIndex(node.wilds, w);
  }

  lemma EndIsBest(node: Node, path: string, params: Params, depth: nat) returns (q: Pattern)
    requires Ordered(node) && depth <= MAX_SEGMENTS && Seg(path) == ""
    ensures var (e, params') := Match(node, path, params, depth); IsBest(node, path, params, depth, e, params', q)
  {
    q := [];
    assert params - {} == params;
    var w := FirstWild(node.wilds);
    if w < |node.wilds| {
      q := [Wild(node.wilds[w].name)];
      FirstWildIsBest(node, path, depth, q);
      AfterOne(node, q, path, depth, params);
    }
    forall p: Pattern | Candidate(node, p, path, depth)
      ensures (w < |node.wilds| || node.entry.methods != {}) && AtLeast(q, p)
    {
      if p != [] { assert p == [Wild(p[0].name)] && Index(node.wilds, p[0].name) < |node.wilds|; }
    }
  }

  lemma {:induction false} AfterOne(node: Node, q: Pattern, path: string, depth: nat, params: Params)
    requires |q| == 1
    ensures After(node, q, path, depth, params) == BindPiece(params - TriedBefore(node, q[0], path, depth), q[0], path)
  {
  }

  lemma PickBranch(node: Node, path: string, params: Params, depth: nat, qs: Pattern, j: nat, qp: Pattern)
    returns (q: Pattern)
    requires Ordered(node) && depth <= MAX_SEGMENTS && Seg(path) != ""
    requires var i := Index(node.children, Seg(path));
             i < |node.children| ==>
               var (e, params') := Match(node.children[i].node, Rest(path), params, depth + 1);
               IsBest(node.children[i].node, Rest(path), params, depth + 1, e, params', qs)
    requires var params1 := params - TriedStatic(node, path, depth);
             var (e, params') := MatchParams(node.params, Seg(path), Rest(path), params1, depth);
             ParamsBest(node.params, Seg(path), Rest(path), params1, depth, e, params', j, qp)
    ensures var (e, params') := Match(node, path, params, depth); IsBest(node, path, params, depth, e, params', q)
  {
    var seg, rest := Seg(path), Rest(path);
    var i := Index(node.children, seg);
    assert params - {} == params;
    var (e, params1) :=
      if i < |node.children| then Match(node.children[i].node, rest, params, depth + 1) else (None, params);
    var (f, params2) := MatchParams(node.params, seg, rest, params1, depth);
    if e.Some? {
      q := StaticBranch(node, path, params, depth, qs);
    } else if f.Some? {
      q := ParamBranch(node, path, params, depth, j, qp);
    } else {
      q := WildBranch(node, path, params, depth);
    }
  }

  lemma StaticBranch(node: Node, path: string, params: Params, depth: nat, qs: Pattern) returns (q: Pattern)
    requires depth <= MAX_SEGMENTS && Seg(path) != ""
    requires var i := Index(node.children, Seg(path));
             && i < |node.children|
             && var (e, params') := Match(node.children[i].node, Rest(path), params, depth + 1);
             && e.Some? && IsBest(node.children[i].node, Rest(path), params, depth + 1, e, params', qs)
    ensures var (e, params') := Match(node, path, params, depth); IsBest(node, path, params, depth, e, params', q)
  {
    var i := Index(node.children, Seg(path));
    q := [Static(Seg(path))] + qs;
    assert q[1..] == qs && params - {} == params;
    ExtendCandidate(node, q[0], node.children[i].node, qs, path, depth);
    forall p: Pattern | Candidate(node, p, path, depth) ensures AtLeast(q, p) {
      var k := CandidateBegins(node, p, path, depth);
    }
  }

  lemma ParamBranch(node: Node, path: string, params: Params, depth: nat, j: nat, qp: Pattern) returns (q: Pattern)
    requires Ordered(node) && depth <= MAX_SEGMENTS && Seg(path) != ""
    requires var i := Index(node.children, Seg(path));
             i < |node.children| ==> NoCandidate(node.children[i].node, Rest(path), depth + 1)
    requires var params1 := params - TriedStatic(node, path, depth);
             var (e, params') := MatchParams(node.params, Seg(path), Rest(path), params1, depth);
             && e.Some? && ParamsBest(node.params, Seg(path), Rest(path), params1, depth, e, params', j, qp)
             && Match(node, path, params, depth) == (e, params')
    ensures var (e, params') := Match(node, path, params, depth); IsBest(node, path, params, depth, e, params', q)
  {
    hide Match;
    hide MatchParams;
    hide Candidate;
    hide EntryAt;
    hide TriedStatic;
    hide TriedIn;
    var kid := node.params[j];
    q := [Param(kid.name)] + qp;
    assert q[1..] == qp;
    SortedIndex(node.params, j);
    ExtendCandidate(node, q[0], kid.node, qp, path, depth);
    var a, b := TriedStatic(node, path, depth), TriedIn(node.params[..j], Rest(path), depth);
    assert params - a - b == params - (a + b);
    forall p: Pattern | Candidate(node, p, path, depth) ensures AtLeast(q, p) {
      var k := CandidateBegins(node, p, path, depth);
      assert p[0].Param? ==> j <= k;
    }
  }

  lemma WildBranch(node: Node, path: string, params: Params, depth: nat) returns (q: Pattern)
    requires Ordered(node) && depth <= MAX_SEGMENTS && Seg(path) != ""
    requires var i := Index(node.children, Seg(path));
             i < |node.children| ==>
               && Match(node.children[i].node, Rest(path), params, depth + 1) ==
                  (None, params - TriedStatic(node, path, depth))
               && NoCandidate(node.children[i].node, Rest(path), depth + 1)
    requires var params1 := params - TriedStatic(node, path, depth);
             MatchParams(node.params, Seg(path), Rest(path), params1, depth) ==
                 (None, params1 - TriedIn(node.params, Rest(path), depth))
    requires forall k :: 0 <= k < |node.params| ==> NoCandidate(node.params[k].node, Rest(path), depth + 1)
    ensures var (e, params') := Match(node, path, params, depth); IsBest(node, path, params, depth, e, params', q)
  {
    q := [];
    var w := FirstWild(node.wilds);
    var a, b := TriedStatic(node, path, depth), TriedIn(node.params, Rest(path), depth);
    assert params - a - b == params - (a + b) && params - {} == params;
    if w < |node.wilds| {
      q := [Wild(node.wilds[w].name)];
      FirstWildIsBest(node, path, depth, q);
      AfterOne(node, q, path, depth, params);
    }
    forall p: Pattern | Candidate(node, p, path, depth) ensures w < |node.wilds| && AtLeast(q, p) {
      var k := CandidateBegins(node, p, path, depth);
    }
  }
}
