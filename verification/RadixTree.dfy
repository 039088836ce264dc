/**
 The radix tree of the HTTP router: path segments, the tree, insertion of a pattern and the
 backtracking search.

 A `std::map` from names to children is a sequence sorted by name, which is also its
 iteration order.
 */
module RadixTree {
  import opened Wrappers

  type Params = map<string, string>

  // ------------------------------------------------------------- segments

  /** A path without its leading slash, if it has one. */
  function Skip(path: string): (r: string) {
    if path != "" && path[0] == '/' then path[1..] else path
  }

  /** The length of the prefix without slashes. */
  function SegLen(s: string): (n: nat)
    ensures n <= |s| && (forall i :: 0 <= i < n ==> s[i] != '/') && (n < |s| ==> s[n] == '/')
  {
    if s == "" || s[0] == '/' then 0 else 1 + SegLen(s[1..])
  }

  /** The segment that `nextSegment` returns, and the path from the new position on. */
  function Seg(path: string): string {
    Skip(path)[..SegLen(Skip(path))]
  }

  function Rest(path: string): (r: string)
    ensures Seg(path) != "" ==> |r| < |path|
  {
    Skip(path)[SegLen(Skip(path))..]
  }

  lemma {:induction false} SegLenIs(s: string, n: nat)
    requires n <= |s| && (forall i :: 0 <= i < n ==> s[i] != '/') && (n < |s| ==> s[n] == '/')
    ensures SegLen(s) == n
  {
  }

  /** nextSegment: skips one slash and advances to the next one. */
  method NextSegment(path: string, pos: nat) returns (seg: string, pos': nat)
    requires pos <= |path|
    ensures pos <= pos' <= |path|
    ensures seg == Seg(path[pos..]) && path[pos'..] == Rest(path[pos..])
  {
    if pos >= |path| {
      return "", pos;
    }
    hide Seg;
    hide Rest;
    pos' := pos;
    if path[pos] == '/' {
      pos' := pos' + 1;
    }
    var start := pos';
    assert path[start..] == Skip(path[pos..]);
    while pos' < |path| && path[pos'] != '/'
      invariant start <= pos' <= |path|
      invariant forall i :: start <= i < pos' ==> path[i] != '/'
    {
      pos' := pos' + 1;
    }
    seg := path[start..pos'];
    SegmentAt(path, pos, start, pos');
  }

  lemma SegmentAt(path: string, pos: nat, start: nat, end: nat)
    requires pos <= start <= end <= |path| && path[start..] == Skip(path[pos..])
    requires (forall i :: start <= i < end ==> path[i] != '/') && (end < |path| ==> path[end] == '/')
    ensures path[start..end] == Seg(path[pos..]) && path[end..] == Rest(path[pos..])
  {
    SegLenIs(path[start..], end - start);
    assert path[start..][..end - start] == path[start..end];
    assert path[start..][end - start..] == path[end..];
  }

  datatype Piece = Static(text: string) | Param(name: string) | Wild(name: string)

  type Pattern = seq<Piece>

  /** How `insertRadix` reads a pattern: it stops at an empty segment and after a wildcard. */
  function Parse(path: string): (p: Pattern)
    ensures Proper(p)
    decreases |path|
  {
    var seg := Seg(path);
    if seg == "" then []
    else if seg[0] == ':' then [Param(seg[1..])] + Parse(Rest(path))
    else if seg[0] == '*' then [Wild(seg[1..])]
    else [Static(seg)] + Parse(Rest(path))
  }

  /** A wildcard only comes last. */
  predicate Proper(p: Pattern) {
    forall i :: 0 <= i < |p| - 1 ==> !p[i].Wild?
  }

  /** What a segment stands for. */
  function PieceOf(seg: string): Piece {
    if seg == "" then Static("")
    else if seg[0] == ':' then Param(seg[1..])
    else if seg[0] == '*' then Wild(seg[1..])
    else Static(seg)
  }

  /** The pieces of some segments, up to the first wildcard. */
  function Pieces(segs: seq<string>): Pattern {
    if segs == [] then []
    else if PieceOf(segs[0]).Wild? then [PieceOf(segs[0])]
    else [PieceOf(segs[0])] + Pieces(segs[1..])
  }

  predicate IsSegment(x: string) {
    x != "" && '/' !in x
  }

  /** Segments with a slash before each. */
  function Joined(segs: seq<string>): string {
    if segs == [] then "" else "/" + segs[0] + Joined(segs[1..])
  }

  /** What can follow the last segment: nothing, one slash at the end, or two slashes. */
  predicate IsTail(rest: string) {
    rest == "" || (rest[0] == '/' && (|rest| == 1 || rest[1] == '/'))
  }

  lemma {:induction false} SegOf(seg: string, rest: string)
    requires '/' !in seg && (rest != "" ==> rest[0] == '/')
    ensures Seg("/" + seg + rest) == seg && Rest("/" + seg + rest) == rest
  {
    var path := "/" + seg + rest;
    assert Skip(path) == seg + rest;
    SegLenIs(seg + rest, |seg|);
  }

  lemma NoSegment(rest: string)
    requires IsTail(rest)
    ensures Seg(rest) == ""
  {
  }

  /** How every path is read: its segments up to the first empty one, and of them those up to the first wildcard. */
  lemma {:induction false} ParseJoined(segs: seq<string>, rest: string)
    requires (forall x | x in segs :: IsSegment(x)) && IsTail(rest)
    ensures Parse(Joined(segs) + rest) == Pieces(segs)
  {
    hide Seg;
    hide Rest;
    hide PieceOf;
    if segs == [] {
      assert Joined(segs) + rest == rest;
      NoSegment(rest);
    } else {
      assert segs[0] in segs && forall x | x in segs[1..] :: x in segs;
      var later := Joined(segs[1..]) + rest;
      assert Joined(segs) + rest == "/" + segs[0] + later;
      SegOf(segs[0], later);
      ParseJoined(segs[1..], rest);
      ParseStep("/" + segs[0] + later);
    }
  }

  lemma {:induction false} ParseStep(path: string)
    requires Seg(path) != ""
    ensures var x := PieceOf(Seg(path)); Parse(path) == if x.Wild? then [x] else [x] + Parse(Rest(path))
  {
  }

  /** And that every path is of this form, when the slash that may be missing in front is there. */
  lemma {:induction false} PathIsJoined(path: string) returns (segs: seq<string>, rest: string)
    requires path == "" || path[0] == '/'
    ensures path == Joined(segs) + rest && (forall x | x in segs :: IsSegment(x)) && IsTail(rest)
    decreases |path|
  {
    if IsTail(path) {
      segs, rest := [], path;
    } else {
      var seg := Seg(path);
      assert path == "/" + seg + Rest(path);
      var others;
      others, rest := PathIsJoined(Rest(path));
      segs := [seg] + others;
      assert segs[1..] == others;
      assert path == "/" + seg + (Joined(others) + rest) == "/" + seg + Joined(others) + rest;
    }
  }

  lemma LeadingSlash(path: string)
    requires path != "" && path[0] != '/'
    ensures Seg(path) == Seg("/" + path) && Rest(path) == Rest("/" + path)
  {
    assert Skip("/" + path) == path == Skip(path);
  }

  /** Pieces that can be told apart in a path. */
  predicate IsPiece(x: Piece) {
    match x
    case Static(text) => IsSegment(text) && text[0] != ':' && text[0] != '*'
    case Param(name) => '/' !in name
    case Wild(name) => '/' !in name
  }

  predicate IsPattern(p: Pattern) {
    Proper(p) && forall x | x in p :: IsPiece(x)
  }

  /** A piece as a segment. */
  function PieceText(x: Piece): string {
    match x
    case Static(text) => text
    case Param(name) => ":" + name
    case Wild(name) => "*" + name
  }

  function Texts(p: Pattern): seq<string> {
    if p == [] then [] else [PieceText(p[0])] + Texts(p[1..])
  }

  /** Every pattern is read back from its simplest writing. */
  lemma {:induction false} ParseRendered(p: Pattern)
    requires IsPattern(p)
    ensures Parse(Joined(Texts(p))) == p
  {
    TextsArePieces(p);
    ParseJoined(Texts(p), "");
    assert Joined(Texts(p)) + "" == Joined(Texts(p));
  }

  lemma {:induction false} TextsArePieces(p: Pattern)
    requires IsPattern(p)
    ensures Pieces(Texts(p)) == p && forall x | x in Texts(p) :: IsSegment(x)
  {
    hide PieceOf;
    hide PieceText;
    hide IsPiece;
    hide IsSegment;
    if p != [] {
      assert p[0] in p && forall x | x in p[1..] :: x in p;
      TextIsPiece(p[0]);
      TextsArePieces(p[1..]);
      assert p == [p[0]] + p[1..];
      assert p[0].Wild? ==> p == [p[0]];
    }
  }

  lemma TextIsPiece(x: Piece)
    requires IsPiece(x)
    ensures PieceOf(PieceText(x)) == x && IsSegment(PieceText(x))
  {
  }

  lemma {:induction false} ParsedIsPattern(path: string)
    ensures IsPattern(Parse(path))
    decreases |path|
  {
    var seg := Seg(path);
    if seg != "" && seg[0] != '*' {
      ParsedIsPattern(Rest(path));
    }
  }

  // ----------------------------------------------------------------- tree

  datatype Method = Invalid | Get | Head | Other(code: nat)

  /** A route; no methods means that nothing is registered at this node. */
  datatype Entry = Entry(routeId: nat, methods: set<Method>)

  datatype Kid = Kid(name: string, node: Node)

  datatype Node = Node(entry: Entry, children: seq<Kid>, params: seq<Kid>, wilds: seq<Kid>)

  const EMPTY_ENTRY := Entry(0, {})

  const EMPTY_NODE := Node(EMPTY_ENTRY, [], [], [])

  /** Lexicographic order of names. */
  predicate Less(a: string, b: string) {
    if b == "" then false
    else if a == "" then true
    else a[0] < b[0] || (a[0] == b[0] && Less(a[1..], b[1..]))
  }

  function Index(kids: seq<Kid>, name: string): (i: nat)
    ensures i <= |kids|
    ensures i < |kids| ==> kids[i].name == name
    ensures forall j :: 0 <= j < i ==> kids[j].name != name
  {
    if kids == [] || kids[0].name == name then 0 else 1 + Index(kids[1..], name)
  }

  function Lookup(kids: seq<Kid>, name: string): Option<Node> {
    var i := Index(kids, name);
    if i < |kids| then Some(kids[i].node) else None
  }

  /** The child of that name, or a new one. */
  function ChildOr(kids: seq<Kid>, name: string): Node {
    var i := Index(kids, name);
    if i < |kids| then kids[i].node else EMPTY_NODE
  }

  /** Where a new name goes. */
  function Slot(kids: seq<Kid>, name: string): (i: nat)
    ensures i <= |kids|
    ensures forall j :: 0 <= j < i ==> !Less(name, kids[j].name)
    ensures i < |kids| ==> Less(name, kids[i].name)
  {
    if kids == [] || Less(name, kids[0].name) then 0 else 1 + Slot(kids[1..], name)
  }

  function Put(kids: seq<Kid>, name: string, node: Node): seq<Kid> {
    var i := Index(kids, name);
    if i < |kids| then kids[i := Kid(name, node)]
    else var j := Slot(kids, name); kids[..j] + [Kid(name, node)] + kids[j..]
  }

  /** Registering a method; GET brings HEAD with it. */
  function AddMethod(e: Entry, m: Method): Entry {
    e.(methods := e.methods + {m} + if m == Get then {Head} else {})
  }

  function AddMethods(e: Entry, ms: seq<Method>): Entry
    decreases |ms|
  {
    if ms == [] then e else AddMethods(AddMethod(e, ms[0]), ms[1..])
  }

  /** A (re-)registration overwrites the id and adds the methods. */
  function Register(e: Entry, ms: seq<Method>, id: nat): Entry {
    AddMethods(e.(routeId := id), ms)
  }

  function Insert(node: Node, p: Pattern, ms: seq<Method>, id: nat): Node
    decreases |p|
  {
    if p == [] then node.(entry := Register(node.entry, ms, id))
    else
      match p[0]
      case Param(n) => node.(params := Put(node.params, n, Insert(ChildOr(node.params, n), p[1..], ms, id)))
      case Wild(n) =>
        var child := ChildOr(node.wilds, n);
        node.(wilds := Put(node.wilds, n, child.(entry := Register(child.entry, ms, id))))
      case Static(s) => node.(children := Put(node.children, s, Insert(ChildOr(node.children, s), p[1..], ms, id)))
  }

  // --------------------------------------------------------------- search

  const MAX_SEGMENTS: nat := 32

  /** The first wildcard child with a route. */
  function FirstWild(wilds: seq<Kid>): (i: nat)
    ensures i <= |wilds|
    ensures i < |wilds| ==> wilds[i].node.entry.methods != {}
    ensures forall j :: 0 <= j < i ==> wilds[j].node.entry.methods == {}
  {
    if wilds == [] || wilds[0].node.entry.methods != {} then 0 else 1 + FirstWild(wilds[1..])
  }

  /** matchRadix; the second result is `params` as the call leaves it. */
  function Match(node: Node, path: string, params: Params, depth: nat): (Option<Entry>, Params)
    decreases node, 1
  {
    if depth > MAX_SEGMENTS then (None, params)
    else
      var seg := Seg(path);
      var w := FirstWild(node.wilds);
      if seg == "" then
        if w < |node.wilds| then (Some(node.wilds[w].node.entry), params[node.wilds[w].name := ""])
        else if node.entry.methods == {} then (None, params)
        else (Some(node.entry), params)
      else
        var i := Index(node.children, seg);
        var (e, params1) :=
          if i < |node.children| then Match(node.children[i].node, Rest(path), params, depth + 1) else (None, params);
        if e.Some? then (e, params1)
        else
          var (f, params2) := MatchParams(node.params, seg, Rest(path), params1, depth);
          if f.Some? then (f, params2)
          else if w < |node.wilds| then
            (Some(node.wilds[w].node.entry), params2[node.wilds[w].name := seg + Rest(path)])
          else (None, params2)
  }

  /** The loop over the parameter children: bind, search, unbind. */
  function MatchParams(kids: seq<Kid>, seg: string, rest: string, params: Params, depth: nat): (Option<Entry>, Params)
    decreases kids, 0
  {
    if kids == [] then (None, params)
    else
      var (e, params') := Match(kids[0].node, rest, params[kids[0].name := seg], depth + 1);
      if e.Some? then (e, params') else MatchParams(kids[1..], seg, rest, params' - {kids[0].name}, depth)
  }
}
