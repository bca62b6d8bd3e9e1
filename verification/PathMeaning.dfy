/**
 * Where a path leads, symlinks aside: when normalisation keeps that, and when it decides it.
 */
module PathMeaning {
  import opened Basics
  import opened LexicalPath

  /** Where a path without a root starts, for each prefix. */
  type Home = Option<Name> -> seq<Name>

  /** Where a path leads, symlinks aside: climbing stops at the root. */
  function Walk(start: seq<Name>, body: Path): seq<Name> {
    if body == [] then start else
      var here := Walk(start, body[..|body| - 1]);
      match body[|body| - 1]
      case Normal(name) => here + [name]
      case ParentDir => if here == [] then [] else here[..|here| - 1]
      case _ => here
  }

  function PrefixOf(path: Path): Option<Name> {
    if path != [] && path[0].Prefix? then Some(path[0].text) else None
  }

  predicate HasRoot(path: Path) {
    Anchor(path) > 0 && path[Anchor(path) - 1].RootDir?
  }

  /** A drive letter without a root: the path is relative to the current directory of that drive. */
  predicate DriveRelative(path: Path) {
    PrefixOf(path).Some? && !HasRoot(path)
  }

  function Resolve(home: Home, path: Path): (Option<Name>, seq<Name>) {
    (PrefixOf(path), Walk(if HasRoot(path) then [] else home(PrefixOf(path)), path[Anchor(path)..]))
  }

  lemma {:induction false} WalkIsRoute(start: seq<Name>, body: Path)
    ensures var r := RouteOf(body);
            Walk(start, body) == start[..SaturatingSub(|start|, r.ups)] + r.names
  {
    if body == [] {
      assert start[..|start|] + [] == start;
    } else {
      var n := |body| - 1;
      WalkIsRoute(start, body[..n]);
      var r := RouteOf(body[..n]);
      var kept := start[..SaturatingSub(|start|, r.ups)];
      match body[n] {
        case Normal(name) =>
          assert kept + r.names + [name] == kept + (r.names + [name]);
        case ParentDir =>
          var here := kept + r.names;
          if r.names != [] {
            assert here[..|here| - 1] == kept + r.names[..|r.names| - 1];
          } else if kept != [] {
            assert here[..|here| - 1] == start[..SaturatingSub(|start|, r.ups + 1)] + [];
          }
        case _ =>
      }
    }
  }

  lemma AnchorsAgree(p: Path, q: Path)
    requires Anchor(p) == Anchor(q) && p[..Anchor(p)] == q[..Anchor(q)]
    ensures PrefixOf(p) == PrefixOf(q) && HasRoot(p) == HasRoot(q)
  {
    var n := Anchor(p);
    if n > 0 {
      assert p[0] == p[..n][0] && q[0] == q[..n][0];
      assert p[n - 1] == p[..n][n - 1] && q[n - 1] == q[..n][n - 1];
    }
  }

  // ----- Canonicity

  function Times(name: Name, n: nat): seq<Name> {
    seq(n, _ => name)
  }

  function Everywhere(name: Name, depth: nat): (home: Home)
    ensures forall p :: home(p) == Times(name, depth)
  {
    p => Times(name, depth)
  }

  /** Where a path leads when every start is `depth` times the same name. */
  function Landing(rooted: bool, r: Route, name: Name, depth: nat): seq<Name> {
    (if rooted then [] else Times(name, SaturatingSub(depth, r.ups))) + r.names
  }

  lemma ResolveEverywhere(p: Path, name: Name, depth: nat)
    ensures Resolve(Everywhere(name, depth), p) == (PrefixOf(p), Landing(HasRoot(p), RouteOf(p[Anchor(p)..]), name, depth))
  {
    var start := if HasRoot(p) then [] else Times(name, depth);
    WalkIsRoute(start, p[Anchor(p)..]);
    var ups := RouteOf(p[Anchor(p)..]).ups;
    if !HasRoot(p) {
      assert start[..SaturatingSub(depth, ups)] == Times(name, SaturatingSub(depth, ups));
    } else {
      assert start[..0] == [];
    }
  }

  /** Paths that differ in prefix, root or route lead to different places from below some name. */
  lemma TellingHome(p: Path, q: Path) returns (name: Name, depth: nat)
    requires !(PrefixOf(p) == PrefixOf(q) && HasRoot(p) == HasRoot(q)
               && SameRoute(HasRoot(p), RouteOf(p[Anchor(p)..]), RouteOf(q[Anchor(q)..])))
    ensures |name| == 1 && Resolve(Everywhere(name, depth), p) != Resolve(Everywhere(name, depth), q)
  {
    var r, s := RouteOf(p[Anchor(p)..]), RouteOf(q[Anchor(q)..]);
    depth := r.ups + s.ups + |r.names| + |s.names| + 1;
    name := if Landing(HasRoot(p), r, "a", depth) == Landing(HasRoot(q), s, "a", depth) then "b" else "a";
    ResolveEverywhere(p, name, depth);
    ResolveEverywhere(q, name, depth);
    if Landing(HasRoot(p), r, name, depth) == Landing(HasRoot(q), s, name, depth) {
      LandingTells(HasRoot(p), r, HasRoot(q), s, depth);
    }
  }

  /** Landing from deep enough below two different names tells the route. */
  lemma LandingTells(rooted: bool, r: Route, otherRooted: bool, s: Route, depth: nat)
    requires depth > r.ups + s.ups + |r.names| + |s.names|
    requires Landing(rooted, r, "a", depth) == Landing(otherRooted, s, "a", depth)
    requires Landing(rooted, r, "b", depth) == Landing(otherRooted, s, "b", depth)
    ensures rooted == otherRooted && r.names == s.names && (!rooted ==> r.ups == s.ups)
  {
    LandingLength(rooted, r, "a", depth);
    LandingLength(otherRooted, s, "a", depth);
    if !rooted {
      SameTails("a", "b", depth - r.ups, r.names, depth - s.ups, s.names);
    }
  }

  lemma LandingLength(rooted: bool, r: Route, name: Name, depth: nat)
    requires depth > r.ups
    ensures |Landing(rooted, r, name, depth)| == (if rooted then 0 else depth - r.ups) + |r.names|
    ensures rooted ==> Landing(rooted, r, name, depth) == r.names
  {
  }

  lemma SameTails(x: Name, y: Name, i: nat, a: seq<Name>, j: nat, b: seq<Name>)
    requires x != y
    requires Times(x, i) + a == Times(x, j) + b && Times(y, i) + a == Times(y, j) + b
    ensures i == j && a == b
  {
    if i < j {
      TailHead(x, i, a, j, b);
      TailHead(y, i, a, j, b);
    } else if j < i {
      TailHead(x, j, b, i, a);
      TailHead(y, j, b, i, a);
    } else {
      assert (Times(x, i) + a)[i..] == a && (Times(x, j) + b)[j..] == b;
    }
  }

  lemma TailHead(x: Name, i: nat, a: seq<Name>, j: nat, b: seq<Name>)
    requires i < j && Times(x, i) + a == Times(x, j) + b
    ensures a != [] && a[0] == x
  {
    assert |a| == j - i + |b|;
    assert (Times(x, i) + a)[i] == a[0] && (Times(x, j) + b)[i] == x;
  }

  /** Two paths lead to the same place from everywhere exactly when prefix, root and route agree; below a root the climb
      does not matter. */
  lemma SameMeaning(p: Path, q: Path)
    ensures (forall home: Home :: Resolve(home, p) == Resolve(home, q)) <==>
            && PrefixOf(p) == PrefixOf(q) && HasRoot(p) == HasRoot(q)
            && SameRoute(HasRoot(p), RouteOf(p[Anchor(p)..]), RouteOf(q[Anchor(q)..]))
  {
    if PrefixOf(p) == PrefixOf(q) && HasRoot(p) == HasRoot(q)
       && SameRoute(HasRoot(p), RouteOf(p[Anchor(p)..]), RouteOf(q[Anchor(q)..])) {
      forall home: Home
        ensures Resolve(home, p) == Resolve(home, q)
      {
        var start := if HasRoot(p) then [] else home(PrefixOf(p));
        WalkIsRoute(start, p[Anchor(p)..]);
        WalkIsRoute(start, q[Anchor(q)..]);
      }
    } else {
      var name, depth := TellingHome(p, q);
    }
  }

  predicate SameRoute(rooted: bool, r: Route, s: Route) {
    r.names == s.names && (rooted || r.ups == s.ups)
  }

  // ----- When normalisation keeps the meaning

  /** Without a drive name, unless the path climbs out of the current directory of a drive; with one, only if the path is
      relative on the same drive and what follows the drive name climbs back to where that name leads. */
  predicate KeepsMeaning(w: Platform, path: Path) {
    var body := path[Anchor(path)..];
    match LastDrive(w, body)
    case None => !(DriveRelative(path) && RouteOf(body).ups > 0)
    case Some(l) =>
      && PrefixOf(path) == Some(l.drive.prefix) && !HasRoot(path)
      && RouteOf(body) == Route(if l.drive.rest == [ParentDir] then 1 else 0, RouteOf(l.after).names)
  }

  /** From every starting directory, the normalised path leads where the original does, exactly then. */
  lemma MeaningIsPreserved(w: Platform, path: Path)
    requires IsPath(path)
    ensures (forall home: Home :: Resolve(home, Normalized(w, path)) == Resolve(home, path)) <==> KeepsMeaning(w, path)
  {
    AnchorOfNormalized(w, path);
    SameMeaning(Normalized(w, path), path);
    NormalizedStart(w, path);
    if LastDrive(w, path[Anchor(path)..]).Some? {
      DriveRouteKept(w, path);
    }
  }

  /** Where a normalised path starts. */
  lemma NormalizedStart(w: Platform, path: Path)
    requires IsPath(path)
    ensures var q := Normalized(w, path);
            match LastDrive(w, path[Anchor(path)..])
            case Some(l) => PrefixOf(q) == Some(l.drive.prefix) && !HasRoot(q)
            case None => PrefixOf(q) == PrefixOf(path) && HasRoot(q) == HasRoot(path)
  {
    var q := Normalized(w, path);
    AnchorOfNormalized(w, path);
    if LastDrive(w, path[Anchor(path)..]).Some? {
      assert q[0] == q[..1][0];
    } else {
      AnchorsAgree(q, path);
    }
  }

  lemma DriveRouteKept(w: Platform, path: Path)
    requires IsPath(path) && LastDrive(w, path[Anchor(path)..]).Some?
    ensures var body := path[Anchor(path)..];
            var l := LastDrive(w, body).value;
            PrefixOf(path) == Some(l.drive.prefix) ==>
              (NormalRoute(w, path) == RouteOf(body) <==>
               RouteOf(body) == Route(if l.drive.rest == [ParentDir] then 1 else 0, RouteOf(l.after).names))
  {
    var body := path[Anchor(path)..];
    var l := LastDrive(w, body).value;
    var front, name := LastDriveSplits(w, body);
    RouteConcat(front + [Normal(name)], l.after);
    RouteOfNamed(front, name);
    var r := RouteOf(front + [Normal(name)]);
    var s := RouteOf(l.after);
    if s.ups == 0 {
      NameStays(r, s, name);
    }
  }

  lemma RouteOfNamed(front: Path, name: Name)
    ensures var r := RouteOf(front + [Normal(name)]);
            r.names != [] && r.names[|r.names| - 1] == name
  {
    var body := front + [Normal(name)];
    assert body[..|body| - 1] == front;
  }

  /** A name that nothing takes away is neither missing from the route nor shorter in it. */
  lemma NameStays(r: Route, s: Route, name: Name)
    requires r.names != [] && r.names[|r.names| - 1] == name && s.ups == 0
    ensures Joined(r, s).names != s.names
    ensures forall n: Name | |n| < |name| :: Joined(r, s).names != [n] + s.names
  {
    var names := Joined(r, s).names;
    assert names[|r.names| - 1] == name;
    assert |names| == |r.names| + |s.names|;
  }

  /** What keeps the meaning of a path leaves no other drive name. */
  lemma KeptIsSettled(w: Platform, path: Path)
    requires IsPath(path) && KeepsMeaning(w, path)
    ensures !ReadsAgain(w, path)
  {
    var body := path[Anchor(path)..];
    if LastDrive(w, body).Some? && RouteOf(LastDrive(w, body).value.after).ups == 0 {
      var l := LastDrive(w, body).value;
      var front, name := LastDriveSplits(w, body);
      RouteConcat(front + [Normal(name)], l.after);
      RouteOfNamed(front, name);
      NameStays(RouteOf(front + [Normal(name)]), RouteOf(l.after), name);
    }
  }

  /** What the last drive name leaves a lone dot of. */
  predicate LeavesDot(w: Platform, path: Path) {
    match LastDrive(w, path[Anchor(path)..])
    case None => false
    case Some(l) => l.drive.rest == [CurDir]
  }

  /** Of paths whose meaning is kept, two have the same normal form exactly when they lead to the same place from
      everywhere and both or neither are left with the dot of a drive name. */
  lemma NormalFormDecidesMeaning(w: Platform, p: Path, q: Path)
    requires IsPath(p) && IsPath(q) && KeepsMeaning(w, p) && KeepsMeaning(w, q)
    ensures Normalized(w, p) == Normalized(w, q) <==>
            LeavesDot(w, p) == LeavesDot(w, q) && forall home: Home :: Resolve(home, p) == Resolve(home, q)
  {
    MeaningIsPreserved(w, p);
    MeaningIsPreserved(w, q);
    FormOfMeaning(w, p);
    FormOfMeaning(w, q);
    if Normalized(w, p) == Normalized(w, q) {
      forall home: Home
        ensures Resolve(home, p) == Resolve(home, q)
      {
        assert Resolve(home, p) == Resolve(home, Normalized(w, p)) == Resolve(home, Normalized(w, q)) == Resolve(home, q);
      }
    }
    if forall home: Home :: Resolve(home, p) == Resolve(home, q) {
      SameMeaning(p, q);
      ToldIsInjective(PrefixOf(p), HasRoot(p), RouteOf(p[Anchor(p)..]), LeavesDot(w, p),
                      RouteOf(q[Anchor(q)..]), LeavesDot(w, q));
    }
  }

  /** A normal form told from where the path leads. */
  function Told(prefix: Option<Name>, rooted: bool, r: Route, dot: bool): Path {
    var anchor := StartOf(prefix, rooted);
    if anchor == [] && r == Route(0, []) then [CurDir]
    else if rooted then anchor + Descent(r.names)
    else if dot then anchor + [CurDir] + Descent(r.names)
    else anchor + Climb(r.ups) + Descent(r.names)
  }

  function StartOf(prefix: Option<Name>, rooted: bool): Path {
    (if prefix.Some? then [Prefix(prefix.value)] else []) + (if rooted then [RootDir] else [])
  }

  lemma FormOfMeaning(w: Platform, p: Path)
    requires IsPath(p) && KeepsMeaning(w, p)
    ensures Same(Normalized(w, p), Told(PrefixOf(p), HasRoot(p), RouteOf(p[Anchor(p)..]), LeavesDot(w, p)))
  {
    NormalizedIs(w, p);
    AnchorIs(p);
    if LastDrive(w, p[Anchor(p)..]).Some? {
      KeptDriveForm(w, p);
    } else {
      PlainTold(p[..Anchor(p)], HasRoot(p), RouteOf(p[Anchor(p)..]));
    }
  }

  lemma PlainTold(anchor: Path, rooted: bool, r: Route)
    ensures r.ups == 0 ==> Same(anchor + Climb(r.ups) + Descent(r.names), anchor + Descent(r.names))
    ensures anchor == [] ==> Same(anchor + Climb(r.ups) + Descent(r.names), Climb(r.ups) + Descent(r.names))
  {
    if r.ups == 0 {
      assert anchor + Climb(0) == anchor;
    }
    if anchor == [] {
      assert anchor + Climb(r.ups) == Climb(r.ups);
    }
  }

  lemma KeptDriveForm(w: Platform, p: Path)
    requires IsPath(p) && KeepsMeaning(w, p) && LastDrive(w, p[Anchor(p)..]).Some?
    ensures Same(NormalForm(w, p), Told(PrefixOf(p), HasRoot(p), RouteOf(p[Anchor(p)..]), LeavesDot(w, p)))
  {
    var l := LastDrive(w, p[Anchor(p)..]).value;
    var front, name := LastDriveSplits(w, p[Anchor(p)..]);
    DriveRouteKept(w, p);
    DriveFormIs(l.drive, true, RouteOf(l.after));
    KeptDriveBody(l.drive, RouteOf(l.after));
    assert StartOf(PrefixOf(p), false) == [Prefix(l.drive.prefix)];
  }

  lemma KeptDriveBody(d: Drive, r: Route)
    requires IsDrive(d) && DriveRoute(d, true, r) == Route(if d.rest == [ParentDir] then 1 else 0, r.names)
    ensures Same([Prefix(d.prefix)] + DriveBody(d, true, r),
                 if d.rest == [CurDir] then [Prefix(d.prefix)] + [CurDir] + Descent(r.names)
                 else [Prefix(d.prefix)] + Climb(if d.rest == [ParentDir] then 1 else 0) + Descent(r.names))
  {
    var prefix, names := [Prefix(d.prefix)], Descent(r.names);
    if d.rest == [CurDir] {
      Associate(prefix, [CurDir], names);
    } else if d.rest == [ParentDir] {
      Associate(prefix, Climb(1), names);
    } else {
      assert d.rest != [] ==> d.rest[0].Normal? && r.ups > 0;
      assert [] + names == names && prefix + Climb(0) == prefix;
    }
  }

  /** Forms told apart by anything but a climb below a root differ. */
  lemma ToldIsInjective(prefix: Option<Name>, rooted: bool, r: Route, dot: bool, s: Route, other: bool)
    requires dot ==> prefix.Some? && !rooted && r.ups == 0
    requires other ==> prefix.Some? && !rooted && s.ups == 0
    requires SameRoute(rooted, r, s)
    ensures Told(prefix, rooted, r, dot) == Told(prefix, rooted, s, other) <==> dot == other
  {
    if dot != other {
      var front := StartOf(prefix, false);
      assert |front + [CurDir] + Descent(r.names)| == |front + Climb(0) + Descent(r.names)| + 1;
    }
  }

  lemma AnchorIs(p: Path)
    ensures p[..Anchor(p)] ==
            (if PrefixOf(p).Some? then [Prefix(PrefixOf(p).value)] else []) + (if HasRoot(p) then [RootDir] else [])
  {
  }
}
