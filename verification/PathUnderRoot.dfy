/**
 * What being under a root says of compared paths: when that is where they lead, and three answers
 * that are wrong.
 */
module PathUnderRoot {
  import opened Basics
  import opened LexicalPath
  import opened PathMeaning
  import opened ComparedPath

  predicate UnderRoot(root: Path, path: Path) {
    path == root || root <= path
  }

  predicate StrictlyUnderRoot(root: Path, path: Path) {
    path != root && root <= path
  }

  predicate PathIsUnderRoot(w: Platform, fs: FileSystem, root: Path, path: Path) {
    UnderRoot(Compared(w, fs, root), Compared(w, fs, path))
  }

  predicate PathIsStrictlyUnderRoot(w: Platform, fs: FileSystem, root: Path, path: Path) {
    StrictlyUnderRoot(Compared(w, fs, root), Compared(w, fs, path))
  }

  predicate Below(root: Place, p: Place) {
    root.prefix == p.prefix && root.names <= p.names
  }

  predicate StrictlyBelow(root: Place, p: Place) {
    Below(root, p) && root != p
  }

  /** For paths that settle: a path is under a root exactly when it leads there or below, and strictly under it exactly
      when it leads further down. */
  lemma SettledUnderRoot(w: Platform, fs: FileSystem, root: Path, path: Path)
    requires IsPath(root) && IsPath(path) && Lawful(w, fs)
    requires StraightOrExists(w, fs, root) && Settles(w, fs, root) && StraightOrExists(w, fs, path) && Settles(w, fs, path)
    ensures PathIsUnderRoot(w, fs, root, path) <==> Below(Leads(w, fs.tree, root), Leads(w, fs.tree, path))
    ensures PathIsStrictlyUnderRoot(w, fs, root, path) <==>
            StrictlyBelow(Leads(w, fs.tree, root), Leads(w, fs.tree, path))
  {
    ComparedIsPlace(w, fs, root);
    ComparedIsPlace(w, fs, path);
    PlacePrefix(Leads(w, fs.tree, root), Leads(w, fs.tree, path));
    PlacePrefix(Leads(w, fs.tree, path), Leads(w, fs.tree, root));
  }

  /** For a path that is straight or exists, the answers under the places of all roots are right exactly when it settles. */
  lemma UnderRootIsExact(w: Platform, fs: FileSystem, path: Path)
    requires IsPath(path) && Lawful(w, fs) && StraightOrExists(w, fs, path)
    ensures (forall root: Place :: UnderRoot(PathOf(root), Compared(w, fs, path)) <==> Below(root, Leads(w, fs.tree, path)))
            <==> Settles(w, fs, path)
  {
    var p, compared := Leads(w, fs.tree, path), Compared(w, fs, path);
    ComparedIsPlace(w, fs, path);
    if Settles(w, fs, path) {
      forall root: Place
        ensures UnderRoot(PathOf(root), compared) <==> Below(root, p)
      {
        PlacePrefix(root, p);
      }
    } else if UnderRoot(PathOf(p), compared) {
      var names := NamesBelow(w, fs, path);
      PlaceGrows(p, names);
      assert UnderRoot(PathOf(Place(p.prefix, p.names + names)), compared);
    } else {
      assert Below(p, p);
    }
  }

  lemma PlaceGrows(p: Place, names: seq<Name>)
    ensures PathOf(Place(p.prefix, p.names + names)) == PathOf(p) + Descent(names)
    ensures names != [] ==> !Below(Place(p.prefix, p.names + names), p)
  {
    assert Descent(p.names + names) == Descent(p.names) + Descent(names);
  }

  /** Below a place, a compared path goes on with names. */
  lemma NamesBelow(w: Platform, fs: FileSystem, path: Path) returns (names: seq<Name>)
    requires IsPath(path) && Lawful(w, fs) && StraightOrExists(w, fs, path)
    requires PathOf(Leads(w, fs.tree, path)) <= Compared(w, fs, path)
    ensures Compared(w, fs, path) == PathOf(Leads(w, fs.tree, path)) + Descent(names)
  {
    var place, compared := PathOf(Leads(w, fs.tree, path)), Compared(w, fs, path);
    if fs.canonicalize(path).Some? {
      assert Resolves(w, fs, path, compared);
    } else {
      forall i | |place| <= i < |compared|
        ensures compared[i].Normal?
      {
        MissingHasNames(w, fs, path, i);
      }
    }
    names := NamesOf(compared[|place|..]);
    assert compared == place + compared[|place|..];
  }

  lemma MissingHasNames(w: Platform, fs: FileSystem, path: Path, i: nat)
    requires IsPath(path) && Lawful(w, fs) && Straight(w, path) && fs.canonicalize(path) == None
    requires PathOf(Leads(w, fs.tree, path)) <= Compared(w, fs, path) && |PathOf(Leads(w, fs.tree, path))| <= i < |Compared(w, fs, path)|
    ensures Compared(w, fs, path)[i].Normal?
  {
    var q := Normalized(w, path);
    StraightIsPlain(w, path);
    MissingPathIs(w, fs, path);
    match Nearest(fs, q, |q|)
    case Some(n) => NamesAfterPlace(Leads(w, fs.tree, q[..n]), q[n..], i, Leads(w, fs.tree, path));
    case None =>
      PlaceIsRooted(Leads(w, fs.tree, path), q);
      NormalizedStart(w, path);
      NormalizedIsNormalForm(w, path);
  }

  lemma NamesAfterPlace(p: Place, names: Path, i: nat, q: Place)
    requires (forall k | 0 <= k < |names| :: names[k].Normal?) && PathOf(q) <= PathOf(p) + names
    requires |PathOf(q)| <= i < |PathOf(p) + names|
    ensures (PathOf(p) + names)[i].Normal?
  {
    assert (PathOf(p) + names)[0] == PathOf(q)[0];
  }

  lemma PlaceIsRooted(p: Place, q: Path)
    requires PathOf(p) <= q
    ensures Anchor(q) == |StartOf(p.prefix, true)| && 0 < Anchor(q) <= |PathOf(p)| && HasRoot(q) && q != [CurDir]
  {
    assert PathOf(p)[0] == q[0];
    assert p.prefix.Some? ==> PathOf(p)[1] == q[1];
  }

  lemma PlacePrefix(p: Place, q: Place)
    ensures PathOf(p) <= PathOf(q) <==> Below(p, q)
  {
    var a, b := PathOf(p), PathOf(q);
    if a <= b {
      assert a[0] == b[0];
      assert p.prefix == q.prefix;
      var n := |StartOf(p.prefix, true)|;
      assert Descent(p.names) == a[n..] && Descent(q.names) == b[n..];
      DescentPrefix(p.names, q.names);
    } else if Below(p, q) {
      DescentPrefix(p.names, q.names);
    }
  }

  lemma DescentPrefix(a: seq<Name>, b: seq<Name>)
    ensures Descent(a) <= Descent(b) <==> a <= b
  {
    if Descent(a) <= Descent(b) {
      forall i | 0 <= i < |a|
        ensures a[i] == b[i]
      {
        assert Descent(a)[i] == Descent(b)[i];
      }
    }
  }

  // ----- Under a root that exists or does not

  /** The compared path starts from a root: it exists, or something above its missing names does. */
  predicate IsResolved(w: Platform, fs: FileSystem, path: Path) {
    fs.canonicalize(path).Some? || Nearest(fs, Normalized(w, path), |Normalized(w, path)|).Some?
  }

  /** The missing names, put back or left as they stand, are no links. */
  predicate NoDanglingLinks(w: Platform, fs: FileSystem, path: Path) {
    var q := Normalized(w, path);
    fs.canonicalize(path).Some? || path == [] ||
    match Nearest(fs, q, |q|)
    case Some(n) => NoLinks(fs.tree, Leads(w, fs.tree, q[..n]), q[n..])
    case None => NoLinks(fs.tree, Start(fs.tree, []), q)
  }

  /** Both compared paths start from a root, or neither does; the empty path, compared as `.`, has only itself below. */
  predicate SameFooting(w: Platform, fs: FileSystem, root: Path, path: Path) {
    IsResolved(w, fs, root) == IsResolved(w, fs, path) && (root == [] ==> path == [])
  }

  /** Of paths without dangling links that are straight or exist, on drives that exist: a path is found under a root exactly
      when it leads there or below and both are on the same footing, and strictly under it when it leads further down. */
  lemma UnderRootIsBelow(w: Platform, fs: FileSystem, root: Path, path: Path)
    requires IsPath(root) && IsPath(path) && Lawful(w, fs)
    requires HasDrive(w, fs, PrefixOf(root)) && HasDrive(w, fs, PrefixOf(path))
    requires StraightOrExists(w, fs, root) && NoDanglingLinks(w, fs, root)
    requires StraightOrExists(w, fs, path) && NoDanglingLinks(w, fs, path)
    ensures PathIsUnderRoot(w, fs, root, path) <==>
            SameFooting(w, fs, root, path) && Below(Leads(w, fs.tree, root), Leads(w, fs.tree, path))
    ensures PathIsStrictlyUnderRoot(w, fs, root, path) <==>
            SameFooting(w, fs, root, path) && StrictlyBelow(Leads(w, fs.tree, root), Leads(w, fs.tree, path))
  {
    if IsResolved(w, fs, root) && IsResolved(w, fs, path) {
      SettledUnderRoot(w, fs, root, path);
    } else if !IsResolved(w, fs, root) && !IsResolved(w, fs, path) {
      UnresolvedUnderRoot(w, fs, root, path);
    } else if IsResolved(w, fs, root) {
      ResolvedIsRooted(w, fs, root);
      UnresolvedIs(w, fs, path);
      RootedIsElsewhere(Compared(w, fs, root), Compared(w, fs, path));
    } else {
      ResolvedIsRooted(w, fs, path);
      UnresolvedIs(w, fs, root);
      RootedIsElsewhere(Compared(w, fs, path), Compared(w, fs, root));
    }
  }

  predicate IsRooted(path: Path) {
    path != [] && (path[0].Prefix? || path[0].RootDir?)
  }

  lemma RootedIsElsewhere(rooted: Path, other: Path)
    requires IsRooted(rooted) && other != [] && !IsRooted(other)
    ensures !UnderRoot(rooted, other) && !UnderRoot(other, rooted)
    ensures !StrictlyUnderRoot(rooted, other) && !StrictlyUnderRoot(other, rooted)
  {
  }

  lemma ResolvedIsRooted(w: Platform, fs: FileSystem, path: Path)
    requires IsPath(path) && Lawful(w, fs) && StraightOrExists(w, fs, path) && IsResolved(w, fs, path)
    ensures IsRooted(Compared(w, fs, path))
  {
    if fs.canonicalize(path).Some? {
      assert Resolves(w, fs, path, fs.canonicalize(path).value);
    } else {
      StraightIsPlain(w, path);
      MissingPathIs(w, fs, path);
    }
  }

  function Tail(path: Path): Path {
    Descent(RouteOf(path[Anchor(path)..]).names)
  }

  /** An unresolved path is compared as its names, or as a dot. */
  function OrDot(tail: Path): Path {
    if tail == [] then [CurDir] else tail
  }

  lemma UnresolvedIs(w: Platform, fs: FileSystem, path: Path)
    requires IsPath(path) && Lawful(w, fs) && HasDrive(w, fs, PrefixOf(path))
    requires StraightOrExists(w, fs, path) && !IsResolved(w, fs, path)
    ensures Same(Compared(w, fs, path), OrDot(Tail(path))) && Same(Normalized(w, path), OrDot(Tail(path)))
    ensures path == [] <==> Tail(path) == []
    ensures Compared(w, fs, path) != [] && !IsRooted(Compared(w, fs, path))
  {
    var q := Normalized(w, path);
    ResolvedIs(w, fs, q, |q|);
    if path != [] {
      NamesAreKept(path[Anchor(path)..]);
      var front := StraightFront(w, path);
      NoFrontLeft(w, fs, path, front, q);
    }
  }

  /** If anything came before the names, the names would be put back after it. */
  lemma NoFrontLeft(w: Platform, fs: FileSystem, path: Path, front: Path, q: Path)
    requires HasDrive(w, fs, PrefixOf(path)) && IsPath(front) && PrefixOf(front) == PrefixOf(path)
    requires (front != [] ==> NamesNothing(w, front)) && Same(q, front + Tail(path)) && Tail(path) != []
    requires Nearest(fs, q, |q|) == None
    ensures Same(q, Tail(path))
  {
    if front != [] {
      assert Same(q[..|front|], front) by { assert q[..|front|] == front; }
      NearestFound(fs, q, |front|, |q|);
    } else {
      assert [] + Tail(path) == Tail(path);
    }
  }

  lemma {:induction false} NearestFound(fs: FileSystem, lexical: Path, n: nat, k: nat)
    requires n < k <= |lexical| && (forall i | n <= i < k :: lexical[i].Normal?) && fs.canonicalize(lexical[..n]).Some?
    ensures Nearest(fs, lexical, k).Some?
    decreases k
  {
    if n < k - 1 {
      NearestFound(fs, lexical, n, k - 1);
    }
  }

  /** What comes before the names of a normalised path. */
  lemma StraightFront(w: Platform, path: Path) returns (front: Path)
    requires IsPath(path) && KeepsMeaning(w, path) && RouteOf(path[Anchor(path)..]).names != []
    ensures Same(Normalized(w, path), front + Tail(path)) && IsPath(front) && PrefixOf(front) == PrefixOf(path)
    ensures front != [] ==> NamesNothing(w, front)
  {
    var r := RouteOf(path[Anchor(path)..]);
    var dots := if HasRoot(path) then [] else if LeavesDot(w, path) then [CurDir] else Climb(r.ups);
    FormOfMeaning(w, path);
    front := StartOf(PrefixOf(path), HasRoot(path)) + dots;
    if HasRoot(path) {
      ConcatEmpty(StartOf(PrefixOf(path), HasRoot(path)));
    }
    StartIsAnchor(PrefixOf(path), HasRoot(path));
    DotsNameNothing(w, StartOf(PrefixOf(path), HasRoot(path)), dots);
  }

  lemma DotsNameNothing(w: Platform, start: Path, dots: Path)
    requires Anchor(start) == |start| && forall i | 0 <= i < |dots| :: dots[i].CurDir? || dots[i].ParentDir?
    ensures IsPath(start + dots) && PrefixOf(start + dots) == PrefixOf(start)
    ensures start + dots != [] ==> NamesNothing(w, start + dots)
  {
    if start == [] {
      DotsAlone(start, dots);
    } else {
      DotsAfterStart(start, dots);
    }
    if start + dots != [] {
      OnlyDots(w, start + dots, dots);
    }
  }

  lemma OnlyDots(w: Platform, front: Path, dots: Path)
    requires front != [] && Same(front[Anchor(front)..], dots)
    requires forall i | 0 <= i < |dots| :: dots[i].CurDir? || dots[i].ParentDir?
    ensures NamesNothing(w, front)
  {
    NamesInAny(dots);
    NamesAreKept(dots);
  }

  lemma DotsAlone(start: Path, dots: Path)
    requires start == [] && forall i | 0 <= i < |dots| :: dots[i].CurDir? || dots[i].ParentDir?
    ensures IsPath(start + dots) && Same((start + dots)[Anchor(start + dots)..], dots)
    ensures PrefixOf(start + dots) == PrefixOf(start)
  {
    assert start + dots == dots && dots[0..] == dots;
  }

  lemma StartIsAnchor(prefix: Option<Name>, rooted: bool)
    ensures Anchor(StartOf(prefix, rooted)) == |StartOf(prefix, rooted)| && PrefixOf(StartOf(prefix, rooted)) == prefix
  {
  }

  lemma DotsAfterStart(start: Path, dots: Path)
    requires start != [] && Anchor(start) == |start|
    requires forall i | 0 <= i < |dots| :: dots[i].CurDir? || dots[i].ParentDir?
    ensures IsPath(start + dots) && Same((start + dots)[Anchor(start + dots)..], dots)
    ensures PrefixOf(start + dots) == PrefixOf(start)
  {
    AnchorOfJoined(start, dots);
    assert start[|start|..] + dots == dots;
    assert (start + dots)[0] == start[0];
  }

  /** Names that are no links lead from the start to where they spell. */
  lemma UnresolvedLeads(w: Platform, fs: FileSystem, path: Path)
    requires IsPath(path) && Lawful(w, fs) && HasDrive(w, fs, PrefixOf(path))
    requires StraightOrExists(w, fs, path) && !IsResolved(w, fs, path) && NoDanglingLinks(w, fs, path)
    ensures Same(PathOf(Leads(w, fs.tree, path)), PathOf(Start(fs.tree, [])) + Tail(path))
  {
    var names := RouteOf(path[Anchor(path)..]).names;
    UnresolvedIs(w, fs, path);
    NamesLead(w, fs.tree, names);
    if path == [] {
      assert Descent([]) == [] && PathOf(Start(fs.tree, [])) + [] == PathOf(Start(fs.tree, []));
    } else {
      StraightLeads(w, fs.tree, path);
    }
  }

  lemma NamesLead(w: Platform, t: Tree, names: seq<Name>)
    ensures Same(Leads(w, t, Descent(names)), Follow(t, Start(t, []), Descent(names)))
  {
    var q, home := Descent(names), t.home(None);
    assert q[0..] == q;
    assert [] + q == q && NamesOf(q) == names;
    WalkNames(home, [], q);
    DescentConcat(home, names);
    FollowConcat(t, t.root(None), Descent(home), q);
  }

  lemma UnresolvedUnderRoot(w: Platform, fs: FileSystem, root: Path, path: Path)
    requires IsPath(root) && IsPath(path) && Lawful(w, fs)
    requires HasDrive(w, fs, PrefixOf(root)) && HasDrive(w, fs, PrefixOf(path))
    requires StraightOrExists(w, fs, root) && NoDanglingLinks(w, fs, root) && !IsResolved(w, fs, root)
    requires StraightOrExists(w, fs, path) && NoDanglingLinks(w, fs, path) && !IsResolved(w, fs, path)
    ensures PathIsUnderRoot(w, fs, root, path) <==>
            (root == [] ==> path == []) && Below(Leads(w, fs.tree, root), Leads(w, fs.tree, path))
    ensures PathIsStrictlyUnderRoot(w, fs, root, path) <==>
            (root == [] ==> path == []) && StrictlyBelow(Leads(w, fs.tree, root), Leads(w, fs.tree, path))
  {
    UnresolvedIs(w, fs, root);
    UnresolvedIs(w, fs, path);
    UnresolvedLeads(w, fs, root);
    UnresolvedLeads(w, fs, path);
    TailsTell(Leads(w, fs.tree, root), Leads(w, fs.tree, path), PathOf(Start(fs.tree, [])), Tail(root), Tail(path));
    DotsTell(RouteOf(root[Anchor(root)..]).names, RouteOf(path[Anchor(path)..]).names);
  }

  lemma TailsTell(r: Place, p: Place, s: Path, a: Path, b: Path)
    requires Same(PathOf(r), s + a) && Same(PathOf(p), s + b)
    ensures Below(r, p) <==> a <= b
    ensures StrictlyBelow(r, p) <==> a <= b && a != b
  {
    PlacePrefix(r, p);
    PlacePrefix(p, r);
    PrefixAfter(s, a, b);
    PrefixAfter(s, b, a);
  }

  lemma DotsTell(a: seq<Name>, b: seq<Name>)
    ensures UnderRoot(OrDot(Descent(a)), OrDot(Descent(b))) <==> (a == [] ==> b == []) && Descent(a) <= Descent(b)
    ensures StrictlyUnderRoot(OrDot(Descent(a)), OrDot(Descent(b))) <==>
            (a == [] ==> b == []) && Descent(a) <= Descent(b) && Descent(a) != Descent(b)
  {
    if a != [] {
      assert Descent(a)[0] == Normal(a[0]);
      assert b == [] ==> OrDot(Descent(b))[0] == CurDir;
    } else if b != [] {
      assert Descent(b)[0] == Normal(b[0]) && OrDot(Descent(a))[0] == CurDir;
    } else {
      assert Descent(a) == Descent(b);
    }
  }

  lemma PrefixAfter(s: Path, a: Path, b: Path)
    ensures s + a <= s + b <==> a <= b
  {
    if s + a <= s + b {
      assert a == (s + a)[|s|..] && b == (s + b)[|s|..];
    }
  }

  // ----- Wrong answers

  /** There is a link in the directory /root, which leads to /other/dir, and no other. The current directory is /root. */
  function Linked(): Tree {
    Tree((prefix: Option<Name>) => Place(None, []), (prefix: Option<Name>) => ["root"],
         (here: Place, name: Name) =>
           if here == Place(None, ["root"]) && name == "link" then Place(None, ["other", "dir"])
           else here.(names := here.names + [name]))
  }

  /** Nothing exists but the root and /root. */
  function RootOnly(w: Platform): FileSystem {
    FileSystem(Linked(), path =>
      if NamesNothing(w, path) || path == [RootDir, Normal("root")] then Some(PathOf(Leads(w, Linked(), path))) else None)
  }

  lemma FollowOne(t: Tree, from: Place, name: Name)
    ensures Follow(t, from, [Normal(name)]) == t.follow(from, name)
  {
    assert [Normal(name)][..0] == [];
    assert Follow(t, from, []) == from;
  }

  lemma FollowTwo(t: Tree, from: Place, a: Name, b: Name)
    ensures Follow(t, from, [Normal(a), Normal(b)]) == t.follow(t.follow(from, a), b)
  {
    assert [Normal(a), Normal(b)][..1] == [Normal(a)];
    FollowOne(t, from, a);
  }

  lemma FollowUp(t: Tree, from: Place, a: Name)
    ensures Follow(t, from, [ParentDir, Normal(a)]) == t.follow(Parent(from), a)
  {
    assert [ParentDir, Normal(a)][..1] == [ParentDir];
    assert [ParentDir][..0] == [] && Follow(t, from, []) == from;
    assert Follow(t, from, [ParentDir]) == Parent(from);
  }

  lemma LinkedRoot()
    ensures Same(Follow(Linked(), Place(None, []), Descent(["root"])), Place(None, ["root"]))
    ensures Same(Follow(Linked(), Place(None, []), Descent([])), Place(None, []))
  {
    FollowOne(Linked(), Place(None, []), "root");
    assert Descent(["root"]) == [Normal("root")] && Descent([]) == [];
    assert [] + ["root"] == ["root"];
  }

  lemma {:induction false} ClimbsToRoot(from: Place, body: Path)
    requires NamesIn(body) == 0 && |from.names| <= 1
    ensures var p := Follow(Linked(), from, body); p == from || p == Place(from.prefix, [])
  {
    if body != [] {
      ClimbsToRoot(from, body[..|body| - 1]);
    }
  }

  lemma LinkedNothing(w: Platform, path: Path)
    requires NamesNothing(w, path)
    ensures var p := Leads(w, Linked(), path); p == Place(None, []) || p == Place(None, ["root"])
  {
    LinkedRoot();
    match w {
      case Unix =>
        ClimbsToRoot(Start(Linked(), path), path[Anchor(path)..]);
      case Windows =>
        var home := if HasRoot(path) then [] else ["root"];
        WalkIsRoute(home, path[Anchor(path)..]);
        var names := Resolve(Linked().home, path).1;
        assert names == [] || names == ["root"];
    }
  }

  lemma RootPaths()
    ensures Same(PathOf(Place(None, [])), [RootDir]) && Same(PathOf(Place(None, ["root"])), [RootDir, Normal("root")])
  {
    assert PathOf(Place(None, [])) == [RootDir];
    assert PathOf(Place(None, ["root"])) == [RootDir, Normal("root")];
  }

  /** The root and /root lead where they say. */
  lemma RootLeads(w: Platform, p: Place)
    requires p == Place(None, []) || p == Place(None, ["root"])
    ensures Same(Leads(w, Linked(), PathOf(p)), p)
  {
    PlaceIsPath(p, PathOf(p));
    LinkedRoot();
    WalkDescent(p.names);
    assert Descent([]) == [];
  }

  lemma RootExists(w: Platform, found: Path, k: nat)
    requires (found == [RootDir] || found == [RootDir, Normal("root")]) && 0 < k <= |found|
    ensures RootOnly(w).canonicalize(found[..k]).Some?
  {
    if k == 1 {
      assert Same(found[..1], [RootDir]) by { assert found[..1] == [RootDir]; }
      assert Same([RootDir][1..], []) by { assert [RootDir][1..] == []; }
      assert Anchor([RootDir]) == 1;
      OnlyDots(w, [RootDir], []);
    } else {
      assert found[..k] == found;
    }
  }

  lemma RootOnlyIsLawful(w: Platform)
    ensures Lawful(w, RootOnly(w)) && forall prefix :: HasDrive(w, RootOnly(w), prefix)
    ensures Same(Leads(w, Linked(), [RootDir, Normal("root")]), Place(None, ["root"]))
  {
    var fs := RootOnly(w);
    RootPaths();
    RootLeads(w, Place(None, ["root"]));
    forall path | fs.canonicalize(path).Some?
      ensures Resolves(w, fs, path, fs.canonicalize(path).value)
    {
      if NamesNothing(w, path) {
        LinkedNothing(w, path);
      }
      RootResolves(w, path, Leads(w, Linked(), path), PathOf(Leads(w, Linked(), path)));
    }
  }

  lemma RootResolves(w: Platform, path: Path, p: Place, found: Path)
    requires p == Leads(w, Linked(), path) && (p == Place(None, []) || p == Place(None, ["root"])) && found == PathOf(p)
    ensures Resolves(w, RootOnly(w), path, found)
  {
    RootLeads(w, p);
    RootPaths();
    RootIsPlain(w, found);
    forall k | Anchor(found) <= k <= |found|
      ensures RootOnly(w).canonicalize(found[..k]).Some?
    {
      RootExists(w, found, k);
    }
  }

  lemma RootIsPlain(w: Platform, found: Path)
    requires found == [RootDir] || found == [RootDir, Normal("root")]
    ensures Plain(w, found) && Anchor(found) == 1
  {
    assert DriveOf(w, "root") == None;
  }

  /** The root `.` exists, `missing/file` does not: the path leads below the root and is not found under it, because
      the empty path above it cannot be resolved. */
  lemma MissingRelativePath(w: Platform, root: Path, path: Path)
    requires root == [CurDir] && path == [Normal("missing"), Normal("file")]
    ensures var fs := RootOnly(w);
            && Lawful(w, fs) && HasDrive(w, fs, None) && Straight(w, path) && NoDanglingLinks(w, fs, path)
            && IsResolved(w, fs, root) && !IsResolved(w, fs, path)
            && Below(Leads(w, fs.tree, root), Leads(w, fs.tree, path)) && !PathIsUnderRoot(w, fs, root, path)
  {
    RootOnlyIsLawful(w);
    NamesAreStraight(w, path);
    MissingStaysRelative(w, path);
    MissingLeads(w, path);
    DotExists(w, root);
    UnderRootIsBelow(w, RootOnly(w), root, path);
  }

  lemma DotExists(w: Platform, root: Path)
    requires root == [CurDir]
    ensures IsPath(root) && PrefixOf(root) == None && RootOnly(w).canonicalize(root).Some?
    ensures Same(Leads(w, Linked(), root), Place(None, ["root"]))
  {
    DotIsWhole(root);
    DotResolves(w, root);
    DotLeads(w, root);
  }

  lemma DotResolves(w: Platform, root: Path)
    requires root == [CurDir] && Same(root[Anchor(root)..], root)
    ensures RootOnly(w).canonicalize(root).Some?
  {
    OnlyDots(w, root, root);
  }

  lemma DotIsWhole(root: Path)
    requires root == [CurDir]
    ensures IsPath(root) && PrefixOf(root) == None && Same(root[Anchor(root)..], root)
  {
    assert root[0..] == root;
  }

  lemma DotLeads(w: Platform, root: Path)
    requires root == [CurDir] && Same(root[Anchor(root)..], root)
    ensures Same(Leads(w, Linked(), root), Place(None, ["root"]))
  {
    LinkedRoot();
    var t, start, home := Linked(), Place(None, ["root"]), ["root"];
    assert Start(t, root) == start;
    assert root[..|root| - 1] == [];
    assert Follow(t, start, root) == Follow(t, start, []) == start;
    assert Walk(home, root) == Walk(home, []) == home;
    assert Resolve(t.home, root).1 == Walk(home, root);
  }

  lemma NamesAreStraight(w: Platform, path: Path)
    requires path == [Normal("missing"), Normal("file")]
    ensures IsPath(path) && PrefixOf(path) == None && Straight(w, path) && Normalized(w, path) == path
  {
    assert DriveOf(w, "missing") == None && DriveOf(w, "file") == None;
    FixedPoints(w, path);
    assert path[0..] == path;
    PlainHasNoDrive(w, path);
  }

  lemma MissingStaysRelative(w: Platform, path: Path)
    requires path == [Normal("missing"), Normal("file")] && Normalized(w, path) == path
    ensures !IsResolved(w, RootOnly(w), path) && Nearest(RootOnly(w), path, |path|) == None
  {
    var fs := RootOnly(w);
    assert path[..1] == [Normal("missing")] && path[..0] == [];
    NamesSomething(w, path);
    NamesSomething(w, path[..1]);
    assert Nearest(fs, path, 0) == None;
    assert Nearest(fs, path, 1) == None;
  }

  lemma NamesSomething(w: Platform, path: Path)
    requires path != [] && path[0].Normal? && path[|path| - 1].Normal?
    ensures !NamesNothing(w, path)
  {
    assert path[0..] == path;
  }

  lemma MissingLeads(w: Platform, path: Path)
    requires path == [Normal("missing"), Normal("file")]
    ensures Same(Leads(w, Linked(), path), Place(None, ["root", "missing", "file"]))
    ensures NoLinks(Linked(), Start(Linked(), []), path)
  {
    assert Same(Descent(["missing", "file"]), path) by { assert Descent(["missing", "file"]) == path; }
    NamesLead(w, Linked(), ["missing", "file"]);
    LinkedRoot();
    FollowMissing(path);
    MissingPlace(path);
  }

  lemma FollowMissing(path: Path)
    requires path == [Normal("missing"), Normal("file")]
    ensures Same(Follow(Linked(), Place(None, ["root"]), path), Place(None, ["root", "missing", "file"]))
  {
    FollowTwo(Linked(), Place(None, ["root"]), "missing", "file");
    assert ["root"] + ["missing"] + ["file"] == ["root", "missing", "file"];
  }

  lemma MissingPlace(path: Path)
    requires path == [Normal("missing"), Normal("file")]
    ensures Same(PathOf(Place(None, ["root", "missing", "file"])), PathOf(Place(None, ["root"])) + path)
  {
    assert PathOf(Place(None, ["root", "missing", "file"])) == PathOf(Place(None, ["root"])) + path;
  }

  /** On Unix, a climb after a link: `/root/link/../x` is compared as `/root/x`, and leads elsewhere. */
  lemma ClimbAfterLink(root: Path, path: Path)
    requires root == [RootDir, Normal("root")]
    requires path == [RootDir, Normal("root"), Normal("link"), ParentDir, Normal("x")]
    ensures var fs := RootOnly(Unix);
            && Lawful(Unix, fs) && HasDrive(Unix, fs, None) && IsPath(path) && !Straight(Unix, path)
            && PathIsUnderRoot(Unix, fs, root, path) && Leads(Unix, fs.tree, path) == Place(None, ["other", "x"])
            && !Below(Leads(Unix, fs.tree, root), Leads(Unix, fs.tree, path))
  {
    RootOnlyIsLawful(Unix);
    RootElsewhere(Unix, root);
    LinkedClimbLeads(path);
    LinkedClimbBends(path);
    LinkedClimbNormalizes(Unix, path);
    RootBefore("x");
    BelowExistingRoot(Unix, root, path, "x");
  }

  lemma RootElsewhere(w: Platform, root: Path)
    requires root == [RootDir, Normal("root")]
    ensures forall p: Place | p.names != [] && p.names[0] == "other" :: !Below(Leads(w, Linked(), root), p)
  {
    RootOnlyIsLawful(w);
  }

  lemma RootBefore(name: Name)
    ensures Same([RootDir, Normal("root"), Normal(name)], [RootDir, Normal("root")] + [Normal(name)])
  {
    assert [RootDir, Normal("root"), Normal(name)] == [RootDir, Normal("root")] + [Normal(name)];
  }

  lemma LinkedClimbBends(path: Path)
    requires path == [RootDir, Normal("root"), Normal("link"), ParentDir, Normal("x")]
    ensures !Straight(Unix, path) && !NamesNothing(Unix, path)
  {
    assert path[1..][1] == Normal("link") && path[1..][2] == ParentDir;
  }

  lemma LinkedClimbLeads(path: Path)
    requires path == [RootDir, Normal("root"), Normal("link"), ParentDir, Normal("x")]
    ensures Leads(Unix, Linked(), path) == Place(None, ["other", "x"])
  {
    var t, start, links := Linked(), Place(None, []), [Normal("root"), Normal("link")];
    LinkedRoot();
    FollowTwo(t, start, "root", "link");
    FollowConcat(t, start, links, [ParentDir, Normal("x")]);
    FollowUp(t, Place(None, ["other", "dir"]), "x");
    assert path[1..] == links + [ParentDir, Normal("x")];
    assert ["other", "dir"][..1] + ["x"] == ["other", "x"];
  }

  lemma LinkedClimbNormalizes(w: Platform, path: Path)
    requires path == [RootDir, Normal("root"), Normal("link"), ParentDir, Normal("x")]
    ensures IsPath(path) && Same(Normalized(w, path), [RootDir, Normal("root"), Normal("x")])
  {
    var body := path[1..];
    assert Same(body, [Normal("root"), Normal("link")] + [ParentDir, Normal("x")]) by {
      assert body == [Normal("root"), Normal("link")] + [ParentDir, Normal("x")];
    }
    assert DriveOf(w, "root") == None && DriveOf(w, "link") == None && DriveOf(w, "x") == None;
    assert Plain(w, body);
    PlainHasNoDrive(w, body);
    NormalizedIs(w, path);
    LinkedClimbRoute();
    assert path[..1] + Descent(["root", "x"]) == [RootDir, Normal("root"), Normal("x")];
  }

  lemma LinkedClimbRoute()
    ensures RouteOf([Normal("root"), Normal("link")] + [ParentDir, Normal("x")]) == Route(0, ["root", "x"])
  {
    RouteToLink();
    RouteUp();
    RouteConcat([Normal("root"), Normal("link")], [ParentDir, Normal("x")]);
    assert ["root", "link"][..1] + ["x"] == ["root", "x"];
  }

  lemma RouteToLink()
    ensures RouteOf([Normal("root"), Normal("link")]) == Route(0, ["root", "link"])
  {
    assert Descent(["root", "link"]) == [Normal("root"), Normal("link")];
    DescentRoute(["root", "link"]);
  }

  lemma RouteUp()
    ensures RouteOf([ParentDir, Normal("x")]) == Route(1, ["x"])
  {
    assert Climb(1) + Descent(["x"]) == [ParentDir, Normal("x")];
    RouteOfDescent(1, ["x"]);
  }

  /** A missing name below the existing directory /root is compared as a path there. */
  lemma BelowExistingRoot(w: Platform, root: Path, path: Path, name: Name)
    requires IsPath(path) && root == [RootDir, Normal("root")] && Same(Normalized(w, path), root + [Normal(name)])
    requires DriveOf(w, name) == None && RootOnly(w).canonicalize(path) == None
    ensures Same(Compared(w, RootOnly(w), path), root + [Normal(name)])
    ensures PathIsUnderRoot(w, RootOnly(w), root, path)
  {
    RootOnlyIsLawful(w);
    RootIsNearest(w, root, Normalized(w, path), name);
    NameIsPlain(w, root, name);
    MissingPathIs(w, RootOnly(w), path);
    RootIsItself(w, root);
  }

  lemma NameIsPlain(w: Platform, root: Path, name: Name)
    requires root == [RootDir, Normal("root")] && DriveOf(w, name) == None
    ensures Plain(w, root + [Normal(name)])
  {
    assert DriveOf(w, "root") == None;
  }

  lemma RootIsNearest(w: Platform, root: Path, q: Path, name: Name)
    requires root == [RootDir, Normal("root")] && Same(q, root + [Normal(name)])
    ensures |q| == 3 && Same(q[..2], root) && Same(q[2..], [Normal(name)]) && Nearest(RootOnly(w), q, 3) == Some(2)
  {
    assert q[..2] == root && q[2..] == [Normal(name)];
  }

  lemma RootIsItself(w: Platform, root: Path)
    requires root == [RootDir, Normal("root")]
    ensures Same(PathOf(Leads(w, Linked(), root)), root) && Same(Compared(w, RootOnly(w), root), root)
  {
    RootOnlyIsLawful(w);
    assert PathOf(Place(None, ["root"])) == root;
  }

  /** A link whose target is missing: `/root/link` is compared as it stands, and leads elsewhere. */
  lemma DanglingLink(w: Platform, root: Path, path: Path)
    requires root == [RootDir, Normal("root")] && path == [RootDir, Normal("root"), Normal("link")]
    ensures var fs := RootOnly(w);
            && Lawful(w, fs) && HasDrive(w, fs, None) && IsPath(path) && Straight(w, path)
            && !NoDanglingLinks(w, fs, path) && PathIsUnderRoot(w, fs, root, path)
            && Leads(w, fs.tree, path) == Place(None, ["other", "dir"])
            && !Below(Leads(w, fs.tree, root), Leads(w, fs.tree, path))
  {
    RootOnlyIsLawful(w);
    RootElsewhere(w, root);
    RootBefore("link");
    LinkIsStraight(w, path);
    LinkDangles(w, root, path);
    LinkLeads(w, root, path);
    BelowExistingRoot(w, root, path, "link");
  }

  lemma LinkDangles(w: Platform, root: Path, path: Path)
    requires root == [RootDir, Normal("root")] && Same(path, root + [Normal("link")]) && Normalized(w, path) == path
    requires !NamesNothing(w, path)
    ensures !NoDanglingLinks(w, RootOnly(w), path)
  {
    RootOnlyIsLawful(w);
    RootIsNearest(w, root, path, "link");
    LinkIsElsewhere();
  }

  lemma LinkLeads(w: Platform, root: Path, path: Path)
    requires root == [RootDir, Normal("root")] && Same(path, root + [Normal("link")])
    ensures Leads(w, Linked(), path) == Place(None, ["other", "dir"])
  {
    RootOnlyIsLawful(w);
    LeadsNames(w, Linked(), root, [Normal("link")]);
    FollowOne(Linked(), Place(None, ["root"]), "link");
  }

  lemma LinkIsElsewhere()
    ensures !NoLinks(Linked(), Place(None, ["root"]), [Normal("link")])
  {
    FollowOne(Linked(), Place(None, ["root"]), "link");
    assert PathOf(Place(None, ["other", "dir"]))[1] == Normal("other");
    assert (PathOf(Place(None, ["root"])) + [Normal("link")])[1] == Normal("root");
  }

  lemma LinkIsStraight(w: Platform, path: Path)
    requires path == [RootDir, Normal("root"), Normal("link")]
    ensures IsPath(path) && Straight(w, path) && Normalized(w, path) == path && !NamesNothing(w, path)
  {
    assert path[1..] == [Normal("root"), Normal("link")];
    assert DriveOf(w, "root") == None && DriveOf(w, "link") == None;
    FixedPoints(w, path);
    PlainHasNoDrive(w, path[1..]);
  }
}
