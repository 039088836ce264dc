/**
 The router over the radix tree: insertion agrees with a linear scan of the registrations,
 and so the search agrees with matching every registered pattern in turn.
 */
module Router {
  import opened Wrappers
  import opened RadixTree
  import opened RadixSearch
  import opened RadixBindings

  // --------------------------------------------------- the order of names

  lemma {:induction false} LessTotal(a: string, b: string)
    ensures a == b || Less(a, b) || Less(b, a)
  {
    if a != "" && b != "" {
      LessTotal(a[1..], b[1..]);
      assert a == [a[0]] + a[1..] && b == [b[0]] + b[1..];
    }
  }

  lemma {:induction false} LessTransitive(a: string, b: string, c: string)
    requires Less(a, b) && Less(b, c)
    ensures Less(a, c)
  {
    if a != "" && a[0] == b[0] == c[0] { LessTransitive(a[1..], b[1..], c[1..]); }
  }

  lemma PutKeepsSorted(kids: seq<Kid>, name: string, node: Node)
    requires Sorted(kids)
    ensures Sorted(Put(kids, name, node))
  {
    if Index(kids, name) == |kids| {
      var j := Slot(kids, name);
      forall i | 0 <= i < |kids|
        ensures if i < j then Less(kids[i].name, name) else Less(name, kids[i].name)
      {
        if i < j { LessTotal(kids[i].name, name); }
        if i > j { LessTransitive(name, kids[j].name, kids[i].name); }
      }
    }
  }

  /** A level of children that holds the old ones, at the same or the next position, and a new one. */
  lemma {:induction false} LookupKept(kids: seq<Kid>, kids': seq<Kid>, m: string, k: nat)
    requires Sorted(kids') && k < |kids'|
    requires Index(kids, m) < |kids| && kids'[k] == kids[Index(kids, m)]
    ensures Lookup(kids', m) == Lookup(kids, m)
  {
    SortedIndex(kids', k);
  }

  /** The map laws of `Put` and `Lookup`. */
  lemma LookupPut(kids: seq<Kid>, name: string, node: Node, m: string)
    requires Sorted(kids)
    ensures Lookup(Put(kids, name, node), m) == if m == name then Some(node) else Lookup(kids, m)
  {
    hide Sorted;
    var kids' := Put(kids, name, node);
    PutKeepsSorted(kids, name, node);
    var i, j, k := Index(kids, name), Slot(kids, name), Index(kids, m);
    if m == name {
      SortedIndex(kids', if i < |kids| then i else j);
    } else if k < |kids| {
      LookupKept(kids, kids', m, if i < |kids| || k < j then k else k + 1);
    } else {
      assert forall x :: 0 <= x < |kids'| ==> kids'[x].name != m;
    }
  }

  lemma PutKeepsAll(kids: seq<Kid>, name: string, node: Node, x: nat)
    requires x < |Put(kids, name, node)|
    ensures Put(kids, name, node)[x] == Kid(name, node) || Put(kids, name, node)[x] in kids
  {
  }

  // ------------------------------------------------------------ insertion

  /** The route of a pattern; a node without a route and no node look the same. */
  function RouteAt(node: Node, p: Pattern): Entry {
    match EntryAt(node, p) case None => EMPTY_ENTRY case Some(e) => e
  }

  lemma {:induction false} InsertKeepsOrdered(node: Node, p: Pattern, ms: seq<Method>, id: nat)
    requires Ordered(node)
    ensures Ordered(Insert(node, p, ms, id))
    decreases |p|
  {
    if p != [] {
      match p[0]
      case Param(n) =>
        var child := ChildOr(node.params, n);
        InsertKeepsOrdered(child, p[1..], ms, id);
        PutKeepsOrdered(node.params, n, Insert(child, p[1..], ms, id));
      case Wild(n) =>
        var child := ChildOr(node.wilds, n);
        NewEntryKeepsOrdered(child, Register(child.entry, ms, id));
        PutKeepsOrdered(node.wilds, n, child.(entry := Register(child.entry, ms, id)));
      case Static(s) =>
        var child := ChildOr(node.children, s);
        InsertKeepsOrdered(child, p[1..], ms, id);
        PutKeepsOrdered(node.children, s, Insert(child, p[1..], ms, id));
    }
  }

  lemma {:induction false} NewEntryKeepsOrdered(node: Node, e: Entry)
    requires Ordered(node)
    ensures Ordered(node.(entry := e))
  {
  }

  lemma {:induction false} PutKeepsOrdered(kids: seq<Kid>, name: string, node: Node)
    requires Sorted(kids) && AllOrdered(kids) && Ordered(node)
    ensures Sorted(Put(kids, name, node)) && AllOrdered(Put(kids, name, node))
  {
    PutKeepsSorted(kids, name, node);
    var kids' := Put(kids, name, node);
    forall x | 0 <= x < |kids'| ensures Ordered(kids'[x].node) {
      PutKeepsAll(kids, name, node, x);
    }
  }

  lemma EmptyHasNoRoute(q: Pattern)
    ensures RouteAt(EMPTY_NODE, q) == EMPTY_ENTRY
  {
  }

  /** Inserting a pattern changes its own route and no other. */
  lemma {:induction false} InsertChangesOneRoute(node: Node, p: Pattern, ms: seq<Method>, id: nat, q: Pattern)
    requires Ordered(node) && Proper(p)
    ensures RouteAt(Insert(node, p, ms, id), q) ==
            if q == p then Register(RouteAt(node, p), ms, id) else RouteAt(node, q)
    decreases |p|
  {
    if p != [] && q != [] {
      assert p == [p[0]] + p[1..] && q == [q[0]] + q[1..];
      match p[0]
      case Param(n) =>
        var child := ChildOr(node.params, n);
        if q[0].Param? { LookupPut(node.params, n, Insert(child, p[1..], ms, id), q[0].name); }
        if q[0] == p[0] {
          InsertChangesOneRoute(child, p[1..], ms, id, q[1..]);
          EmptyHasNoRoute(q[1..]);
          EmptyHasNoRoute(p[1..]);
        }
      case Wild(n) =>
        var child := ChildOr(node.wilds, n);
        if q[0].Wild? { LookupPut(node.wilds, n, child.(entry := Register(child.entry, ms, id)), q[0].name); }
        assert |p| == 1;
      case Static(s) =>
        var child := ChildOr(node.children, s);
        if q[0].Static? { LookupPut(node.children, s, Insert(child, p[1..], ms, id), q[0].text); }
        if q[0] == p[0] {
          InsertChangesOneRoute(child, p[1..], ms, id, q[1..]);
          EmptyHasNoRoute(q[1..]);
          EmptyHasNoRoute(p[1..]);
        }
    }
  }

  /** Inserting a pattern makes its own branch and no other. */
  lemma {:induction false} InsertMakesOneBranch(node: Node, p: Pattern, ms: seq<Method>, id: nat, x: Pattern)
    requires Ordered(node) && Proper(p)
    ensures EntryAt(Insert(node, p, ms, id), x).Some? <==> EntryAt(node, x).Some? || x <= p
    decreases |p|
  {
    if p != [] && x != [] {
      assert p == [p[0]] + p[1..] && x == [x[0]] + x[1..];
      assert x <= p <==> x[0] == p[0] && x[1..] <= p[1..];
      match p[0]
      case Param(n) =>
        var child := ChildOr(node.params, n);
        if x[0].Param? { LookupPut(node.params, n, Insert(child, p[1..], ms, id), x[0].name); }
        if x[0] == p[0] { InsertMakesOneBranch(child, p[1..], ms, id, x[1..]); EmptyHasNoBranch(x[1..]); }
      case Wild(n) =>
        var child := ChildOr(node.wilds, n);
        if x[0].Wild? { LookupPut(node.wilds, n, child.(entry := Register(child.entry, ms, id)), x[0].name); }
        assert |p| == 1;
      case Static(s) =>
        var child := ChildOr(node.children, s);
        if x[0].Static? { LookupPut(node.children, s, Insert(child, p[1..], ms, id), x[0].text); }
        if x[0] == p[0] { InsertMakesOneBranch(child, p[1..], ms, id, x[1..]); EmptyHasNoBranch(x[1..]); }
    }
  }

  lemma {:induction false} EmptyHasNoBranch(x: Pattern)
    ensures EntryAt(EMPTY_NODE, x).Some? <==> x == []
  {
  }

  // --------------------------------------------------------- linear scan

  /** One successful call of `addRoute`. */
  datatype Registration = Registration(path: string, methods: seq<Method>, id: nat)

  /** `c` stands at the beginning of a segment. */
  ghost predicate HasMarker(path: string, c: char) {
    exists i :: 0 <= i < |path| && path[i] == c && (i == 0 || path[i - 1] == '/')
  }

  ghost predicate IsRadix(path: string) {
    HasMarker(path, ':') || HasMarker(path, '*')
  }

  /** What a scan of all registrations in order says about a pattern: the last id, all the methods. */
  ghost function Scan(regs: seq<Registration>, q: Pattern): Entry {
    if regs == [] then EMPTY_ENTRY
    else
      var (before, last) := (regs[..|regs| - 1], regs[|regs| - 1]);
      if IsRadix(last.path) && Parse(last.path) == q then Register(Scan(before, q), last.methods, last.id)
      else Scan(before, q)
  }

  /** The same for a path registered without parameters or wildcards. */
  ghost function ScanExact(regs: seq<Registration>, path: string): Option<Entry> {
    if regs == [] then None
    else
      var (before, last) := (regs[..|regs| - 1], regs[|regs| - 1]);
      if !IsRadix(last.path) && last.path == path
      then var e := match ScanExact(before, path) case None => EMPTY_ENTRY case Some(e) => e;
           Some(Register(e, last.methods, last.id))
      else ScanExact(before, path)
  }

  /** No parameter name twice in one pattern. */
  predicate DistinctNames(p: Pattern) {
    forall i, j | 0 <= i < j < |p| && p[i].Param? && p[j].Param? :: p[i].name != p[j].name
  }

  ghost predicate AllNamesDistinct(regs: seq<Registration>) {
    forall r :: r in regs && IsRadix(r.path) ==> DistinctNames(Parse(r.path))
  }

  /** What a registration is for: a path as it stands, or a pattern. */
  datatype Target = Path(path: string) | Shape(q: Pattern)

  ghost predicate IsFor(r: Registration, t: Target) {
    match t
    case Path(path) => !IsRadix(r.path) && r.path == path
    case Shape(q) => IsRadix(r.path) && Parse(r.path) == q
  }

  /** The methods that a registration lists, and HEAD with GET. */
  predicate Lists(r: Registration, m: Method) {
    m in r.methods || (m == Head && Get in r.methods)
  }

  ghost predicate IsOffered(regs: seq<Registration>, t: Target, m: Method) {
    exists r :: r in regs && IsFor(r, t) && Lists(r, m)
  }

  ghost predicate IsRegistered(regs: seq<Registration>, t: Target) {
    exists r :: r in regs && IsFor(r, t)
  }

  ghost predicate IsLastFor(regs: seq<Registration>, t: Target, i: nat) {
    i < |regs| && IsFor(regs[i], t) && forall j | i < j < |regs| :: !IsFor(regs[j], t)
  }

  /** A registered pattern with a method that matches the path within 32 segments. */
  ghost predicate Matches(regs: seq<Registration>, q: Pattern, path: string) {
    && (exists m :: IsOffered(regs, Shape(q), m))
    && Length(q) <= MAX_SEGMENTS && Bind(q, path).Some?
  }

  /** The pattern the router has to choose. */
  ghost predicate IsWinner(regs: seq<Registration>, q: Pattern, path: string) {
    Matches(regs, q, path) && forall p :: Matches(regs, p, path) ==> AtLeast(q, p)
  }

  // ---------------------------------------------------- what the scan says

  /** A route with exactly the methods that registrations list, and the id of the last of them. */
  ghost predicate Records(regs: seq<Registration>, t: Target, e: Entry) {
    && (forall m :: m in e.methods <==> IsOffered(regs, t, m))
    && (forall i: nat | i < |regs| && IsLastFor(regs, t, i) :: e.routeId == regs[i].id)
  }

  lemma {:induction false} MethodsAdded(e: Entry, ms: seq<Method>, m: Method)
    ensures AddMethods(e, ms).routeId == e.routeId
    ensures m in AddMethods(e, ms).methods <==> m in e.methods || m in ms || (m == Head && Get in ms)
    decreases |ms|
  {
    if ms != [] {
      assert ms == [ms[0]] + ms[1..];
      MethodsAdded(AddMethod(e, ms[0]), ms[1..], m);
    }
  }

  lemma OneMoreOffer(regs: seq<Registration>, t: Target, m: Method)
    requires regs != []
    ensures var before, last := regs[..|regs| - 1], regs[|regs| - 1];
            IsOffered(regs, t, m) <==> IsOffered(before, t, m) || (IsFor(last, t) && Lists(last, m))
  {
    hide IsFor;
    hide Lists;
    var before, last := regs[..|regs| - 1], regs[|regs| - 1];
    assert regs == before + [last] && last in regs;
  }

  lemma OneMoreLast(regs: seq<Registration>, t: Target, i: nat)
    requires regs != [] && IsLastFor(regs, t, i)
    ensures var before, last := regs[..|regs| - 1], regs[|regs| - 1];
            if IsFor(last, t) then i == |before|
            else i < |before| && IsLastFor(before, t, i) && before[i] == regs[i]
  {
    hide IsFor;
  }

  /** One registration more, for the target or for another one. */
  lemma RegisterRecords(regs: seq<Registration>, t: Target, e: Entry)
    requires regs != [] && Records(regs[..|regs| - 1], t, e)
    ensures var last := regs[|regs| - 1];
            Records(regs, t, if IsFor(last, t) then Register(e, last.methods, last.id) else e)
  {
    hide IsFor;
    hide IsOffered;
    hide IsLastFor;
    var before, last := regs[..|regs| - 1], regs[|regs| - 1];
    forall m
      ensures IsOffered(regs, t, m) <==> IsOffered(before, t, m) || (IsFor(last, t) && Lists(last, m))
      ensures m in Register(e, last.methods, last.id).methods <==> m in e.methods || Lists(last, m)
      ensures Register(e, last.methods, last.id).routeId == last.id
    {
      OneMoreOffer(regs, t, m);
      MethodsAdded(e.(routeId := last.id), last.methods, m);
    }
    forall i: nat | i < |regs| && IsLastFor(regs, t, i)
      ensures regs[i].id == if IsFor(last, t) then last.id else e.routeId
    {
      OneMoreLast(regs, t, i);
    }
  }

  lemma NothingRecorded(t: Target)
    ensures Records([], t, EMPTY_ENTRY) && !IsRegistered([], t)
  {
  }

  lemma {:induction false} ScanRecords(regs: seq<Registration>, q: Pattern)
    ensures Records(regs, Shape(q), Scan(regs, q))
  {
    hide Records;
    hide Register;
    if regs == [] {
      NothingRecorded(Shape(q));
    } else {
      ScanRecords(regs[..|regs| - 1], q);
      RegisterRecords(regs, Shape(q), Scan(regs[..|regs| - 1], q));
    }
  }

  lemma {:induction false} ScanExactRecords(regs: seq<Registration>, path: string)
    ensures ScanExact(regs, path).Some? <==> IsRegistered(regs, Path(path))
    ensures Records(regs, Path(path), if ScanExact(regs, path).Some? then ScanExact(regs, path).value else EMPTY_ENTRY)
  {
    hide Records;
    hide Register;
    NothingRecorded(Path(path));
    if regs != [] {
      var before, last := regs[..|regs| - 1], regs[|regs| - 1];
      ScanExactRecords(before, path);
      var e := match ScanExact(before, path) case None => EMPTY_ENTRY case Some(e) => e;
      RegisterRecords(regs, Path(path), e);
      OneMoreRegistered(regs, Path(path));
    }
  }

  lemma OneMoreRegistered(regs: seq<Registration>, t: Target)
    requires regs != []
    ensures IsRegistered(regs, t) <==> IsRegistered(regs[..|regs| - 1], t) || IsFor(regs[|regs| - 1], t)
  {
    hide IsFor;
    assert regs == regs[..|regs| - 1] + [regs[|regs| - 1]] && regs[|regs| - 1] in regs;
  }

  lemma {:induction false} LastExists(regs: seq<Registration>, t: Target) returns (i: nat)
    requires IsRegistered(regs, t)
    ensures IsLastFor(regs, t, i)
  {
    hide IsFor;
    var last := |regs| - 1;
    if IsFor(regs[last], t) {
      i := last;
    } else {
      OneMoreRegistered(regs, t);
      i := LastExists(regs[..last], t);
    }
  }

  // --------------------------------------------- the search and the scan

  /** The tree after a list of registrations. */
  ghost function Build(regs: seq<Registration>): Node {
    if regs == [] then EMPTY_NODE
    else
      var (before, last) := (regs[..|regs| - 1], regs[|regs| - 1]);
      if IsRadix(last.path) then Insert(Build(before), Parse(last.path), last.methods, last.id) else Build(before)
  }

  /** The tree holds exactly what the scan says. */
  lemma {:induction false} BuildAgreesWithScan(regs: seq<Registration>, q: Pattern)
    ensures Ordered(Build(regs)) && RouteAt(Build(regs), q) == Scan(regs, q)
  {
    if regs == [] {
      EmptyHasNoRoute(q);
    } else {
      var (before, last) := (regs[..|regs| - 1], regs[|regs| - 1]);
      BuildAgreesWithScan(before, q);
      if IsRadix(last.path) {
        InsertKeepsOrdered(Build(before), Parse(last.path), last.methods, last.id);
        InsertChangesOneRoute(Build(before), Parse(last.path), last.methods, last.id, q);
      }
    }
  }

  /** The branches of the tree are the beginnings of the registered patterns. */
  lemma {:induction false} BuildHasBranches(regs: seq<Registration>, x: Pattern)
    requires x != []
    ensures EntryAt(Build(regs), x).Some? <==> exists r :: r in regs && Begins(r, x)
  {
    if regs == [] {
      EmptyHasNoBranch(x);
    } else {
      hide EntryAt;
      hide Begins;
      var (before, last) := (regs[..|regs| - 1], regs[|regs| - 1]);
      BuildHasBranches(before, x);
      BuildAgreesWithScan(before, x);
      OneMoreBegins(regs, x);
      if IsRadix(last.path) {
        InsertMakesOneBranch(Build(before), Parse(last.path), last.methods, last.id, x);
      }
    }
  }

  lemma OneMoreBegins(regs: seq<Registration>, x: Pattern)
    requires regs != []
    ensures var (before, last) := (regs[..|regs| - 1], regs[|regs| - 1]);
            && ((exists r :: r in regs && Begins(r, x)) <==>
               (exists r :: r in before && Begins(r, x)) || Begins(last, x))
            && (Begins(last, x) <==> IsRadix(last.path) && x <= Parse(last.path))
  {
    assert regs == regs[..|regs| - 1] + [regs[|regs| - 1]];
  }

  /** A registered pattern begins with these pieces. */
  ghost predicate Begins(r: Registration, x: Pattern) {
    IsRadix(r.path) && x <= Parse(r.path)
  }

  // ------------------------------------------------------- lost bindings

  /**
   A registration that makes the search lose the winner's binding of `n`: it agrees with the winner
   beyond the last piece that binds `n`, up to a piece `i` where it is preferred, and at a piece `k` from
   there on it binds `n` itself, with the path following it that far within the depth limit.
   */
  ghost predicate LosesBy(r: Registration, q: Pattern, path: string, n: string, i: nat, k: nat)
    requires Binds(q, n)
  {
    var p := Parse(r.path);
    && IsRadix(r.path)
    && LastBound(q, n) < i < |q| && i <= k < |p| && k <= MAX_SEGMENTS
    && p[..i] == q[..i] && Prefers(p[i], q[i])
    && p[k] == Param(n) && Walks(p[..k + 1], path)
  }

  ghost predicate Loses(regs: seq<Registration>, q: Pattern, path: string, n: string)
    requires Binds(q, n)
  {
    exists r, i: nat, k: nat :: r in regs && LosesBy(r, q, path, n, i, k)
  }

  /** The winner's bindings that are left. */
  ghost function Kept(regs: seq<Registration>, q: Pattern, path: string): Params
    requires Bind(q, path).Some?
  {
    var b := Bind(q, path).value;
    map n | n in b && Binds(q, n) && !Loses(regs, q, path, n) :: b[n]
  }

  lemma {:induction false} LosesIff(regs: seq<Registration>, q: Pattern, path: string, n: string)
    requires Binds(q, n)
    ensures Loses(regs, q, path, n) <==> Drops(Build(regs), q, path, 0, n, LastBound(q, n) + 1)
  {
    hide LosesBy;
    hide DropsAt;
    hide Build;
    if Loses(regs, q, path, n) {
      var r, i: nat, k: nat :| r in regs && LosesBy(r, q, path, n, i, k);
      var x := LosesDrops(regs, q, path, n, r, i, k);
    }
    if Drops(Build(regs), q, path, 0, n, LastBound(q, n) + 1) {
      var x: Pattern, i: nat :| LastBound(q, n) + 1 <= i && DropsAt(Build(regs), q, path, 0, n, x, i);
      var r, k := DropsLoses(regs, q, path, n, x, i);
    }
  }

  lemma LosesDrops(regs: seq<Registration>, q: Pattern, path: string, n: string, r: Registration, i: nat, k: nat)
    returns (x: Pattern)
    requires Binds(q, n) && r in regs && LosesBy(r, q, path, n, i, k)
    ensures LastBound(q, n) + 1 <= i && DropsAt(Build(regs), q, path, 0, n, x, i)
  {
    hide Build;
    hide Walks;
    hide EntryAt;
    hide Parse;
    hide IsRadix;
    var p := Parse(r.path);
    x := p[..k + 1];
    assert Begins(r, x);
    BuildHasBranches(regs, x);
    assert x[..i] == p[..i] && x[i] == p[i] && x[|x| - 1] == p[k];
  }

  lemma DropsLoses(regs: seq<Registration>, q: Pattern, path: string, n: string, x: Pattern, i: nat)
    returns (r: Registration, k: nat)
    requires Binds(q, n) && LastBound(q, n) + 1 <= i && DropsAt(Build(regs), q, path, 0, n, x, i)
    ensures r in regs && LosesBy(r, q, path, n, i, k)
  {
    hide Build;
    hide Walks;
    hide EntryAt;
    hide Parse;
    k := |x| - 1;
    BuildHasBranches(regs, x);
    r :| r in regs && Begins(r, x);
    assert Parse(r.path)[..|x|] == x && Parse(r.path)[..i] == x[..i];
  }

  /** Only a pattern that repeats a name loses its binding for another. */
  lemma {:induction false} LoserRepeatsName(r: Registration, q: Pattern, path: string, n: string, i: nat, k: nat)
    requires Binds(q, n) && Proper(q) && LosesBy(r, q, path, n, i, k)
    ensures !DistinctNames(Parse(r.path))
  {
    var p, b := Parse(r.path), LastBound(q, n);
    assert p[b] == p[..i][b] == q[..i][b] == q[b];
  }

  /** So with distinct names in every pattern nothing is lost. */
  lemma {:induction false} DistinctNamesLoseNothing(regs: seq<Registration>, q: Pattern, path: string)
    requires AllNamesDistinct(regs) && Proper(q) && Bind(q, path).Some?
    ensures Kept(regs, q, path) == Bind(q, path).value
  {
    hide LosesBy;
    hide DistinctNames;
    forall n | n in Bind(q, path).value
      ensures Binds(q, n) && !Loses(regs, q, path, n)
    {
      BindHas(q, path, n);
      forall r, i: nat, k: nat | r in regs && LosesBy(r, q, path, n, i, k)
        ensures false
      {
        LoserRepeatsName(r, q, path, n, i, k);
        LoserIsRadix(r, q, path, n, i, k);
      }
    }
  }

  lemma {:induction false} LoserIsRadix(r: Registration, q: Pattern, path: string, n: string, i: nat, k: nat)
    requires Binds(q, n) && LosesBy(r, q, path, n, i, k)
    ensures IsRadix(r.path)
  {
  }

  /**
   The search of the tree is a linear scan: it fails if and only if no registered pattern matches,
   otherwise it returns the winner's route, and it leaves exactly those of the winner's bindings that
   no registration makes it lose.
   */
  lemma SearchAgreesWithScan(regs: seq<Registration>, path: string) returns (q: Pattern)
    ensures var (e, params) := Match(Build(regs), path, map[], 0);
            match e
            case None => forall p :: !Matches(regs, p, path)
            case Some(entry) => IsWinner(regs, q, path) && entry == Scan(regs, q) && params == Kept(regs, q, path)
  {
    var root := Build(regs);
    BuildAgreesWithScan(regs, []);
    q := MatchIsBest(root, path, map[], 0);
    hide Ordered;
    hide Match;
    forall p ensures Candidate(root, p, path, 0) <==> Matches(regs, p, path) {
      BuildAgreesWithScan(regs, p);
      ScanRecords(regs, p);
      assert Scan(regs, p).methods != {} <==> exists m :: m in Scan(regs, p).methods;
    }
    BuildAgreesWithScan(regs, q);
    var (e, params) := Match(root, path, map[], 0);
    if e.Some? {
      MatchedIsProper(regs, q, path);
      KeptIsAfter(regs, q, path);
    }
  }

  lemma {:induction false} KeptIsAfter(regs: seq<Registration>, q: Pattern, path: string)
    requires Candidate(Build(regs), q, path, 0) && Bind(q, path).Some? && Proper(q)
    ensures After(Build(regs), q, path, 0, map[]) == Kept(regs, q, path)
  {
    hide Build;
    hide After;
    hide Kept;
    hide Candidate;
    var after, kept := After(Build(regs), q, path, 0, map[]), Kept(regs, q, path);
    forall n: string
      ensures n in after <==> n in kept
      ensures n in after ==> after[n] == kept[n]
    {
      KeptName(regs, q, path, n);
    }
  }

  lemma {:induction false} KeptName(regs: seq<Registration>, q: Pattern, path: string, n: string)
    requires Candidate(Build(regs), q, path, 0) && Bind(q, path).Some? && Proper(q)
    ensures var after, kept := After(Build(regs), q, path, 0, map[]), Kept(regs, q, path);
            (n in after <==> n in kept) && (n in after ==> after[n] == kept[n])
  {
    hide Build;
    hide After;
    hide Drops;
    hide Loses;
    hide Ordered;
    hide Candidate;
    hide Bind;
    hide Binds;
    hide LastBound;
    hide Proper;
    BuildAgreesWithScan(regs, []);
    AfterIs(Build(regs), q, path, 0, map[], n);
    BindHas(q, path, n);
    if Binds(q, n) { LosesIff(regs, q, path, n); }
  }

  /** Two patterns that match the same path are never each preferred to the other. */
  lemma {:induction false} PreferenceIsStrict(p: Pattern, q: Pattern, path: string)
    requires Bind(p, path).Some? && Bind(q, path).Some? && AtLeast(p, q) && AtLeast(q, p)
    requires Proper(p) && Proper(q)
    ensures p == q
    decreases |p|
  {
    if p != [] && q != [] {
      assert p == [p[0]] + p[1..] && q == [q[0]] + q[1..];
      if p[0] == q[0] {
        if p[0].Wild? { assert |p| == 1 && |q| == 1; } else { PreferenceIsStrict(p[1..], q[1..], Rest(path)); }
      } else {
        match (p[0], q[0])
        case (Param(x), Param(y)) => LessAsymmetric(x, y);
        case (Wild(x), Wild(y)) => LessAsymmetric(x, y);
        case _ =>
      }
    }
  }

  lemma MatchedIsProper(regs: seq<Registration>, q: Pattern, path: string)
    requires Matches(regs, q, path)
    ensures Proper(q)
  {
    var m :| IsOffered(regs, Shape(q), m);
    var r :| r in regs && IsFor(r, Shape(q)) && Lists(r, m);
  }

  lemma WinnerIsUnique(regs: seq<Registration>, p: Pattern, q: Pattern, path: string)
    requires IsWinner(regs, p, path) && IsWinner(regs, q, path)
    ensures p == q
  {
    MatchedIsProper(regs, p, path);
    MatchedIsProper(regs, q, path);
    PreferenceIsStrict(p, q, path);
  }

  lemma PutAlone(name: string, x: Node, y: Node)
    ensures ChildOr([], name) == EMPTY_NODE && ChildOr([Kid(name, x)], name) == x
    ensures Put([], name, y) == [Kid(name, y)] && Put([Kid(name, x)], name, y) == [Kid(name, y)]
  {
  }

  /** The tree of two patterns: parameter `a` twice and then `z`; parameter `a` and then wildcard `r`. */
  function TwoRoutes(a: string, r: string): Node {
    var inner := Node(EMPTY_ENTRY, [Kid("z", Node(Register(EMPTY_ENTRY, [Get], 1), [], [], []))], [], []);
    var wild := Node(Register(EMPTY_ENTRY, [Get], 2), [], [], []);
    Node(EMPTY_ENTRY, [], [Kid(a, Node(EMPTY_ENTRY, [], [Kid(a, inner)], [Kid(r, wild)]))], [])
  }

  lemma TwoRoutesIsBuilt(a: string, r: string)
    ensures TwoRoutes(a, r) ==
            Insert(Insert(EMPTY_NODE, [Param(a), Param(a), Static("z")], [Get], 1), [Param(a), Wild(r)], [Get], 2)
  {
    var p, q := [Param(a), Param(a), Static("z")], [Param(a), Wild(r)];
    var leaf := Node(Register(EMPTY_ENTRY, [Get], 1), [], [], []);
    var inner := Node(EMPTY_ENTRY, [Kid("z", leaf)], [], []);
    assert p[1..] == [Param(a), Static("z")] && p[1..][1..] == [Static("z")] && [Static("z")][1..] == []
           && q[1..] == [Wild(r)];
    PutAlone("z", leaf, leaf);
    assert Insert(EMPTY_NODE, [Static("z")], [Get], 1) == inner;
    PutAlone(a, inner, inner);
    var outer := Node(EMPTY_ENTRY, [], [Kid(a, inner)], []);
    assert Insert(EMPTY_NODE, p[1..], [Get], 1) == outer;
    var outer' := outer.(wilds := [Kid(r, Node(Register(EMPTY_ENTRY, [Get], 2), [], [], []))]);
    PutAlone(r, leaf, Node(Register(EMPTY_ENTRY, [Get], 2), [], [], []));
    assert Insert(outer, q[1..], [Get], 2) == outer';
    PutAlone(a, outer, outer);
    PutAlone(a, outer, outer');
  }

  /** The search behind the first segment: the second `a` is bound and unbound, and the wildcard found. */
  lemma {:induction false} BehindFirst(a: string, r: string, path: string, first: string)
    requires a != r && Seg(path) != "" && Seg(Rest(path)) == ""
    ensures var outer := TwoRoutes(a, r).params[0].node;
            Match(outer, path, map[a := first], 1) ==
                (Some(outer.wilds[0].node.entry), map[r := Seg(path) + Rest(path)])
  {
    var outer := TwoRoutes(a, r).params[0].node;
    SecondFails(a, r, path, first);
    hide MatchParams;
    assert outer.children == [];
  }

  lemma {:induction false} SecondFails(a: string, r: string, path: string, first: string)
    requires Seg(path) != "" && Seg(Rest(path)) == ""
    ensures MatchParams(TwoRoutes(a, r).params[0].node.params, Seg(path), Rest(path), map[a := first], 1) ==
            (None, map[])
  {
    var outer := TwoRoutes(a, r).params[0].node;
    var inner, m := outer.params[0].node, map[a := Seg(path)];
    assert Match(inner, Rest(path), m, 2) == (None, m);
    assert map[a := first][a := Seg(path)] == m && m - {a} == map[];
    assert MatchParams(outer.params[1..], Seg(path), Rest(path), map[], 1) == (None, map[]);
  }

  /**
   A family of lost bindings: in that tree a path of two segments is answered by the second pattern, but
   backtracking out of the first one has erased its binding of `a`.
   */
  lemma {:induction false} RepeatedNameLosesBinding(a: string, r: string, path: string)
    requires a != r && Seg(path) != "" && Seg(Rest(path)) != "" && Seg(Rest(Rest(path))) == ""
    ensures var (e, params) := Match(TwoRoutes(a, r), path, map[], 0);
            var q := [Param(a), Wild(r)];
            && e.Some? && e == EntryAt(TwoRoutes(a, r), q)
            && Bind(q, path).Some? && a in Bind(q, path).value && a !in params
  {
    hide Bind;
    SecondBinds(a, r, path);
    BehindFirst(a, r, Rest(path), Seg(path));
    assert [Param(a), Wild(r)][1..] == [Wild(r)];
  }

  lemma {:induction false} SecondBinds(a: string, r: string, path: string)
    requires a != r && Seg(path) != "" && Seg(Rest(path)) != ""
    ensures var b := Bind([Param(a), Wild(r)], path); b.Some? && a in b.value
  {
    assert [Param(a), Wild(r)][1..] == [Wild(r)];
  }

  // ------------------------------------------------------------ the router

  datatype MatchResult = MatchResult(matched: bool, routeId: nat, params: Params, allowed: set<Method>)

  const NO_MATCH := MatchResult(false, 0, map[], {})

  const MAX_PATH_LENGTH: nat := 2048

  function LookupMethod(e: Entry, m: Method, params: Params): MatchResult {
    if m in e.methods then MatchResult(true, e.routeId, params, {}) else MatchResult(false, 0, params, e.methods)
  }

  /**
   The answer to a request for a target: the id registered last if any registration lists the method,
   and otherwise the methods that registrations do list.
   */
  ghost predicate IsAnswer(regs: seq<Registration>, t: Target, m: Method, r: MatchResult) {
    && (r.matched <==> IsOffered(regs, t, m))
    && (r.matched ==> r.allowed == {} && exists i: nat :: IsLastFor(regs, t, i) && r.routeId == regs[i].id)
    && (!r.matched ==> r.routeId == 0 && forall x :: x in r.allowed <==> IsOffered(regs, t, x))
  }

  lemma LookupAnswers(regs: seq<Registration>, t: Target, e: Entry, m: Method, params: Params)
    requires Records(regs, t, e)
    ensures IsAnswer(regs, t, m, LookupMethod(e, m, params)) && LookupMethod(e, m, params).params == params
  {
    if IsOffered(regs, t, m) {
      var r :| r in regs && IsFor(r, t) && Lists(r, m);
      hide IsFor;
      assert IsRegistered(regs, t);
      var i := LastExists(regs, t);
    }
  }

  /** isParamOrWild of `addRoute`. */
  method IsParamOrWild(path: string, c: char) returns (b: bool)
    ensures b == HasMarker(path, c)
  {
    if path != "" && path[0] == c {
      return true;
    }
    var i := 1;
    while i < |path|
      invariant 1 <= i
      invariant path == "" || path[0] != c
      invariant forall j :: 1 <= j < i && j < |path| ==> !(path[j] == c && path[j - 1] == '/')
    {
      if path[i] == c && path[i - 1] == '/' {
        return true;
      }
      i := i + 1;
    }
    return false;
  }

  /** The loop over the wildcard children. */
  method FindWild(wilds: seq<Kid>) returns (w: nat)
    ensures w == FirstWild(wilds)
  {
    w := 0;
    while w < |wilds| && wilds[w].node.entry.methods == {}
      invariant w <= |wilds| && w <= FirstWild(wilds)
    {
      w := w + 1;
    }
  }

  /** matchRadix with its loops. */
  method MatchRadix(node: Node, path: string, params: Params, depth: nat) returns (e: Option<Entry>, params': Params)
    ensures (e, params') == Match(node, path, params, depth)
    decreases node, 1
  {
    params' := params;
    if depth > MAX_SEGMENTS {
      return None, params';
    }
    var seg, pos := NextSegment(path, 0);
    assert path[0..] == path;
    var rest := path[pos..];
    var w := FindWild(node.wilds);
    if seg == "" {
      if w < |node.wilds| {
        return Some(node.wilds[w].node.entry), params'[node.wilds[w].name := ""];
      }
      return if node.entry.methods == {} then None else Some(node.entry), params';
    }
    var i := Index(node.children, seg);
    if i < |node.children| {
      e, params' := MatchRadix(node.children[i].node, rest, params', depth + 1);
      if e.Some? {
        return;
      }
    }
    e, params' := MatchParamKids(node.params, seg, rest, params', depth);
    if e.None? && w < |node.wilds| {
      e, params' := Some(node.wilds[w].node.entry), params'[node.wilds[w].name := seg + rest];
    }
  }

  method MatchParamKids(kids: seq<Kid>, seg: string, rest: string, params: Params, depth: nat)
    returns (e: Option<Entry>, params': Params)
    ensures (e, params') == MatchParams(kids, seg, rest, params, depth)
    decreases kids, 0
  {
    e, params' := None, params;
    var k := 0;
    while k < |kids|
      invariant 0 <= k <= |kids| && e == None
      invariant MatchParams(kids[k..], seg, rest, params', depth) == MatchParams(kids, seg, rest, params, depth)
    {
      params' := params'[kids[k].name := seg];
      e, params' := MatchRadix(kids[k].node, rest, params', depth + 1);
      if e.Some? {
        return;
      }
      params' := params' - {kids[k].name};
      k := k + 1;
    }
  }

  lemma {:induction false} OneMore(regs: seq<Registration>, r: Registration)
    ensures Build(regs + [r]) ==
            if IsRadix(r.path) then Insert(Build(regs), Parse(r.path), r.methods, r.id) else Build(regs)
    ensures forall p ::
              var e := ScanExact(regs, p);
              ScanExact(regs + [r], p) ==
              if IsRadix(r.path) || r.path != p then e
              else Some(Register(if e.Some? then e.value else EMPTY_ENTRY, r.methods, r.id))
  {
    hide IsRadix;
    assert (regs + [r])[..|regs|] == regs;
  }

  class RouterCore {
    var exactRoutes: map<string, Entry>
    var radixRoot: Node
    var nextRouteId: nat
    ghost var regs: seq<Registration>

    ghost predicate Valid()
      reads this
    {
      && (forall i | 0 <= i < |regs| :: regs[i].id < nextRouteId)
      && (forall i, j | 0 <= i < j < |regs| :: regs[i].id < regs[j].id)
      && radixRoot == Build(regs)
      && forall p :: ScanExact(regs, p) == if p in exactRoutes then Some(exactRoutes[p]) else None
    }

    constructor ()
      ensures Valid() && regs == [] && nextRouteId == 1
    {
      exactRoutes, radixRoot, nextRouteId, regs := map[], EMPTY_NODE, 1, [];
    }

    /** Fails on an invalid method; otherwise the call is recorded under a fresh id. */
    method AddRoute(path: string, methods: seq<Method>) returns (r: Option<nat>)
      requires Valid()
      modifies this
      ensures Valid()
      ensures Invalid in methods ==> r == None && regs == old(regs) && nextRouteId == old(nextRouteId)
      ensures Invalid !in methods ==>
                && r == Some(old(nextRouteId)) && nextRouteId == old(nextRouteId) + 1
                && regs == old(regs) + [Registration(path, methods, old(nextRouteId))]
    {
      hide Build;
      hide ScanExact;
      hide HasMarker;
      hide Insert;
      hide Register;
      if Invalid in methods {
        return None;
      }
      var id := nextRouteId;
      nextRouteId := nextRouteId + 1;
      var hasParam := IsParamOrWild(path, ':');
      var hasWild := IsParamOrWild(path, '*');
      if !hasParam && !hasWild {
        var entry := if path in exactRoutes then exactRoutes[path] else EMPTY_ENTRY;
        exactRoutes := exactRoutes[path := Register(entry, methods, id)];
      } else {
        radixRoot := Insert(radixRoot, Parse(path), methods, id);
      }
      OneMore(regs, Registration(path, methods, id));
      regs := regs + [Registration(path, methods, id)];
      r := Some(id);
    }

    /** An exact path first, then the winner among the patterns, else no match. */
    method Match(m: Method, path: string) returns (r: MatchResult)
      requires Valid()
      ensures |path| > MAX_PATH_LENGTH ==> r == NO_MATCH
      ensures |path| <= MAX_PATH_LENGTH && IsRegistered(regs, Path(path)) ==>
                IsAnswer(regs, Path(path), m, r) && r.params == map[]
      ensures |path| <= MAX_PATH_LENGTH && !IsRegistered(regs, Path(path)) ==>
                if exists q :: Matches(regs, q, path) then
                  exists q ::
                    IsWinner(regs, q, path) && IsAnswer(regs, Shape(q), m, r) && r.params == Kept(regs, q, path)
                else r == NO_MATCH
    {
      hide IsAnswer;
      hide Records;
      hide LookupMethod;
      hide IsRegistered;
      if |path| > MAX_PATH_LENGTH {
        return NO_MATCH;
      }
      ScanExactRecords(regs, path);
      if path in exactRoutes {
        LookupAnswers(regs, Path(path), exactRoutes[path], m, map[]);
        return LookupMethod(exactRoutes[path], m, map[]);
      }
      var e, params := MatchRadix(radixRoot, path, map[], 0);
      ghost var q := SearchAgreesWithScan(regs, path);
      if e.Some? {
        ScanRecords(regs, q);
        LookupAnswers(regs, Shape(q), e.value, m, params);
        r := LookupMethod(e.value, m, params);
      } else {
        r := NO_MATCH;
      }
    }
  }
}
