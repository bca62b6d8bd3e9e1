/**
 * The paths that are compared: an existing path is resolved; a missing one is normalised, its nearest
 * existing directory is resolved, and the missing names are put back. Where such a path leads, and
 * when it is that place.
 */
module ComparedPath {
  import opened Basics
  import opened LexicalPath
  import opened PathMeaning

  // ----- File systems

  /** A directory or file as symlinks leave it: the names down from a root. */
  datatype Place = Place(prefix: Option<Name>, names: seq<Name>)

  /** Where the root of each prefix is; the names of the current directory below it; and where a name in a directory
      leads, which is elsewhere for a symlink. */
  datatype Tree = Tree(root: Option<Name> -> Place, home: Home, follow: (Place, Name) -> Place)

  /** Canonicalisation fails for a path that does not exist. */
  datatype FileSystem = FileSystem(tree: Tree, canonicalize: Path -> Option<Path>)

  function Parent(p: Place): Place {
    p.(names := if p.names == [] then [] else p.names[..|p.names| - 1])
  }

  /** Following a body from a place; a missing name leads to where it would be created. */
  function Follow(t: Tree, from: Place, body: Path): Place {
    if body == [] then from else
      var here := Follow(t, from, body[..|body| - 1]);
      match body[|body| - 1]
      case Normal(name) => t.follow(here, name)
      case ParentDir => Parent(here)
      case _ => here
  }

  /** Where the body of a path is followed from. */
  function Start(t: Tree, path: Path): Place {
    Follow(t, t.root(PrefixOf(path)), Descent(if HasRoot(path) then [] else t.home(PrefixOf(path))))
  }

  /** Unix follows one component after another, so that a climb leaves the target of a link. Windows first takes the climbs
      out of the text, that of the current directory included, and then follows the names that are left. */
  function Leads(w: Platform, t: Tree, path: Path): Place {
    match w
    case Unix => Follow(t, Start(t, path), path[Anchor(path)..])
    case Windows => Follow(t, t.root(PrefixOf(path)), Descent(Resolve(t.home, path).1))
  }

  function PathOf(p: Place): Path {
    StartOf(p.prefix, true) + Descent(p.names)
  }

  /** What exists is resolved to the place it leads to, and lies in existing directories; a root is a root; and the empty
      path cannot be resolved. */
  ghost predicate Lawful(w: Platform, fs: FileSystem) {
    && (forall path | fs.canonicalize(path).Some? :: Resolves(w, fs, path, fs.canonicalize(path).value))
    && (forall prefix :: fs.tree.root(prefix).names == [])
    && fs.canonicalize([]) == None
  }

  /** The place is written as a path that leads there itself and has no name that reads as a drive. */
  ghost predicate Resolves(w: Platform, fs: FileSystem, path: Path, found: Path) {
    && found == PathOf(Leads(w, fs.tree, path)) && Leads(w, fs.tree, found) == Leads(w, fs.tree, path)
    && Plain(w, found)
    && forall k | Anchor(found) <= k <= |found| :: fs.canonicalize(found[..k]).Some?
  }

  function NamesIn(body: Path): nat {
    if body == [] then 0 else NamesIn(body[..|body| - 1]) + if body[|body| - 1].Normal? then 1 else 0
  }

  /** The path is no more than a root or a current directory and climbs from there. */
  predicate NamesNothing(w: Platform, path: Path) {
    var body := path[Anchor(path)..];
    path != [] && match w case Unix => NamesIn(body) == 0 case Windows => RouteOf(body).names == []
  }

  /** The root and the current directory of a prefix exist, and the directories above it. */
  ghost predicate HasDrive(w: Platform, fs: FileSystem, prefix: Option<Name>) {
    forall path | IsPath(path) && PrefixOf(path) == prefix && NamesNothing(w, path) :: fs.canonicalize(path).Some?
  }

  // ----- The methods

  /** `lexical[..k]` is what is left to look up; the names after it are missing. */
  function ResolvedFrom(w: Platform, fs: FileSystem, lexical: Path, k: nat): Path
    requires k <= |lexical|
  {
    if k == 0 || !lexical[k - 1].Normal? then lexical
    else
      match fs.canonicalize(lexical[..k - 1])
      case Some(found) => Normalized(w, PushAll(w, found, lexical[k - 1..]))
      case None => ResolvedFrom(w, fs, lexical, k - 1)
  }

  function PushAll(w: Platform, buffer: Path, names: Path): Path {
    AbsorbAll(w, buffer, true, names)
  }

  method NormalizeMissingPathForCompare(w: Platform, fs: FileSystem, path: Path) returns (resolved: Path)
    requires IsPath(path) && Lawful(w, fs)
    ensures Same(resolved, ResolvedFrom(w, fs, Normalized(w, path), |Normalized(w, path)|))
  {
    var lexical := NormalizePathLexically(w, path);
    var cursor := lexical;
    var missing: seq<Name> := [];
    NothingMissing(lexical);
    while cursor != [] && cursor[|cursor| - 1].Normal?
      invariant LookedUp(w, fs, lexical, cursor, missing)
      decreases |cursor|
    {
      LookUp(w, fs, lexical, cursor, missing);
      missing := missing + [cursor[|cursor| - 1].name];
      var parent := cursor[..|cursor| - 1];
      var found := fs.canonicalize(parent);
      if found.Some? {
        var joined := PushMissing(w, found.value, missing);
        FoundIsPath(w, fs, parent, joined, missing);
        resolved := NormalizePathLexically(w, joined);
        return;
      }
      cursor := parent;
    }
    resolved := lexical;
  }

  /** Nothing was found yet: the cursor is left of the lexical path, and the names after it are missing. */
  ghost predicate LookedUp(w: Platform, fs: FileSystem, lexical: Path, cursor: Path, missing: seq<Name>) {
    && |cursor| <= |lexical| && Same(cursor, lexical[..|cursor|])
    && Same(Descent(Reversed(missing)), lexical[|cursor|..])
    && Same(ResolvedFrom(w, fs, lexical, |cursor|), ResolvedFrom(w, fs, lexical, |lexical|))
  }

  lemma LookUp(w: Platform, fs: FileSystem, lexical: Path, cursor: Path, missing: seq<Name>)
    requires LookedUp(w, fs, lexical, cursor, missing) && cursor != [] && cursor[|cursor| - 1].Normal?
    ensures var parent, longer := cursor[..|cursor| - 1], missing + [cursor[|cursor| - 1].name];
            match fs.canonicalize(parent)
            case Some(found) =>
              Same(Normalized(w, PushAll(w, found, Descent(Reversed(longer)))), ResolvedFrom(w, fs, lexical, |lexical|))
            case None => LookedUp(w, fs, lexical, parent, longer)
  {
    MissingGrows(lexical, |cursor|, missing);
    FrontOfFront(lexical, |cursor|);
    ResolvedStep(w, fs, lexical, |cursor|, cursor[..|cursor| - 1]);
  }

  lemma ResolvedStep(w: Platform, fs: FileSystem, lexical: Path, k: nat, parent: Path)
    requires 0 < k <= |lexical| && lexical[k - 1].Normal? && Same(parent, lexical[..k - 1])
    ensures Same(ResolvedFrom(w, fs, lexical, k),
                 match fs.canonicalize(parent)
                 case Some(found) => Normalized(w, PushAll(w, found, lexical[k - 1..]))
                 case None => ResolvedFrom(w, fs, lexical, k - 1))
  {
  }

  function Reversed(names: seq<Name>): seq<Name> {
    seq(|names|, i requires 0 <= i < |names| => names[|names| - 1 - i])
  }

  lemma NothingMissing(lexical: Path)
    ensures Same(Descent(Reversed([])), lexical[|lexical|..]) && Same(lexical, lexical[..|lexical|])
  {
    assert Descent(Reversed([])) == lexical[|lexical|..] && lexical == lexical[..|lexical|];
  }

  lemma MissingGrows(lexical: Path, k: nat, missing: seq<Name>)
    requires 0 < k <= |lexical| && lexical[k - 1].Normal? && Same(Descent(Reversed(missing)), lexical[k..])
    ensures Same(Descent(Reversed(missing + [lexical[k - 1].name])), lexical[k - 1..])
  {
    var name := lexical[k - 1].name;
    assert Reversed(missing + [name]) == [name] + Reversed(missing);
    assert Descent(Reversed(missing + [name])) == [lexical[k - 1]] + Descent(Reversed(missing));
    assert lexical[k - 1..] == [lexical[k - 1]] + lexical[k..];
  }

  lemma FrontOfFront(lexical: Path, k: nat)
    requires 0 < k <= |lexical|
    ensures Same(lexical[..k][..k - 1], lexical[..k - 1])
  {
    assert lexical[..k][..k - 1] == lexical[..k - 1];
  }

  /** The missing names, last found first, are pushed in their order. */
  method PushMissing(w: Platform, found: Path, missing: seq<Name>) returns (joined: Path)
    ensures joined == PushAll(w, found, Descent(Reversed(missing)))
  {
    joined := found;
    for i := |missing| downto 0
      invariant joined == PushAll(w, found, Descent(Reversed(missing))[..|missing| - i])
    {
      var names := Descent(Reversed(missing));
      assert names[..|missing| - i][..|missing| - i - 1] == names[..|missing| - i - 1];
      joined := Push(w, joined, missing[i]);
    }
    assert Descent(Reversed(missing))[..|missing|] == Descent(Reversed(missing));
  }

  lemma FoundIsPath(w: Platform, fs: FileSystem, parent: Path, joined: Path, missing: seq<Name>)
    requires Lawful(w, fs) && fs.canonicalize(parent).Some?
    requires joined == PushAll(w, fs.canonicalize(parent).value, Descent(Reversed(missing)))
    ensures IsPath(joined)
  {
    assert Resolves(w, fs, parent, fs.canonicalize(parent).value);
    PushedIsPath(w, fs.canonicalize(parent).value, Descent(Reversed(missing)));
  }

  lemma {:induction false} PushedIsPath(w: Platform, found: Path, names: Path)
    requires IsPath(found) && (forall i | 0 <= i < |names| :: names[i].Normal?)
    requires found != []
    ensures IsPath(PushAll(w, found, names)) && PushAll(w, found, names) != []
  {
    if names != [] {
      PushedIsPath(w, found, names[..|names| - 1]);
      PushIsPath(w, PushAll(w, found, names[..|names| - 1]), names[|names| - 1].name);
    }
  }

  lemma PushIsPath(w: Platform, buffer: Path, name: Name)
    requires IsPath(buffer) && buffer != []
    ensures IsPath(Push(w, buffer, name)) && Push(w, buffer, name) != []
  {
    if DriveOf(w, name) == None {
      AnchorOfJoined(buffer, [Normal(name)]);
    }
  }

  function Compared(w: Platform, fs: FileSystem, path: Path): Path {
    match fs.canonicalize(path)
    case Some(found) => found
    case None => ResolvedFrom(w, fs, Normalized(w, path), |Normalized(w, path)|)
  }

  method NormalizePathForCompare(w: Platform, fs: FileSystem, path: Path) returns (compared: Path)
    requires IsPath(path) && Lawful(w, fs)
    ensures compared == Compared(w, fs, path)
  {
    match fs.canonicalize(path) {
      case Some(found) => compared := found;
      case None => compared := NormalizeMissingPathForCompare(w, fs, path);
    }
  }

  // ----- Following

  lemma {:induction false} FollowConcat(t: Tree, from: Place, a: Path, b: Path)
    ensures Follow(t, from, a + b) == Follow(t, Follow(t, from, a), b)
  {
    if b == [] {
      assert a + b == a;
    } else {
      assert (a + b)[..|a + b| - 1] == a + b[..|b| - 1];
      FollowConcat(t, from, a, b[..|b| - 1]);
    }
  }

  /** Somewhere in the body a climb comes after a name. */
  ghost predicate ClimbsAfterName(body: Path) {
    exists i, j :: 0 <= i < j < |body| && body[i].Normal? && body[j].ParentDir?
  }

  lemma {:induction false} NamesInAny(body: Path)
    ensures NamesIn(body) > 0 <==> exists i :: 0 <= i < |body| && body[i].Normal?
  {
    if body != [] {
      var front := body[..|body| - 1];
      NamesInAny(front);
      if i :| 0 <= i < |front| && front[i].Normal? {
        assert body[i].Normal?;
      }
      if i :| 0 <= i < |body| && body[i].Normal? {
        assert i < |front| ==> front[i].Normal?;
      }
    }
  }

  lemma ClimbsAtEnd(front: Path, c: Component)
    ensures ClimbsAfterName(front + [c]) <==> ClimbsAfterName(front) || (c.ParentDir? && NamesIn(front) > 0)
  {
    var body := front + [c];
    NamesInAny(front);
    if i, j :| 0 <= i < j < |body| && body[i].Normal? && body[j].ParentDir? {
      assert front[i].Normal?;
      assert j < |front| ==> front[j].ParentDir?;
    }
    if i, j :| 0 <= i < j < |front| && front[i].Normal? && front[j].ParentDir? {
      assert body[i].Normal? && body[j].ParentDir?;
    }
    if c.ParentDir? && NamesIn(front) > 0 {
      var i :| 0 <= i < |front| && front[i].Normal?;
      assert body[i].Normal? && body[|front|].ParentDir?;
    }
  }

  /** A route keeps all names exactly when no climb comes after one. */
  lemma {:induction false} NamesAreKept(body: Path)
    ensures |RouteOf(body).names| <= NamesIn(body)
    ensures |RouteOf(body).names| == NamesIn(body) <==> !ClimbsAfterName(body)
  {
    if body != [] {
      var front := body[..|body| - 1];
      assert body == front + [body[|body| - 1]];
      NamesAreKept(front);
      ClimbsAtEnd(front, body[|body| - 1]);
    }
  }

  /** A body that climbs only before it descends leads where its route leads. */
  lemma {:induction false} FollowRoute(t: Tree, from: Place, body: Path)
    requires !ClimbsAfterName(body)
    ensures Follow(t, from, body) == Follow(t, Follow(t, from, Climb(RouteOf(body).ups)), Descent(RouteOf(body).names))
  {
    if body != [] {
      var n := |body| - 1;
      var front := body[..n];
      assert body == front + [body[n]];
      ClimbsAtEnd(front, body[n]);
      FollowRoute(t, from, front);
      FollowConcat(t, from, front, [body[n]]);
      NamesAreKept(front);
      FollowOneMore(t, from, RouteOf(front), body[n]);
    }
  }

  lemma FollowOneMore(t: Tree, from: Place, r: Route, c: Component)
    requires c.ParentDir? ==> r.names == []
    ensures var s := Extend(r, c);
            Follow(t, Follow(t, from, Climb(s.ups)), Descent(s.names))
            == Follow(t, Follow(t, Follow(t, from, Climb(r.ups)), Descent(r.names)), [c])
  {
    var here := Follow(t, from, Climb(r.ups));
    assert [c][..0] == [];
    match c {
      case Normal(name) =>
        assert Descent(r.names + [name])[..|r.names|] == Descent(r.names);
      case ParentDir =>
        assert Climb(r.ups + 1)[..r.ups] == Climb(r.ups);
      case _ =>
    }
  }

  lemma {:induction false} ClimbAtRoot(t: Tree, from: Place, ups: nat)
    requires from.names == []
    ensures Follow(t, from, Climb(ups)) == from
  {
    if ups > 0 {
      assert Climb(ups)[..ups - 1] == Climb(ups - 1);
      ClimbAtRoot(t, from, ups - 1);
    }
  }

  // ----- When the compared path leads where the original does

  /** The normalised path keeps the meaning; and on Unix no climb comes after a name, which may be a link. */
  ghost predicate Straight(w: Platform, path: Path) {
    KeepsMeaning(w, path) && (w.Unix? ==> !ClimbsAfterName(path[Anchor(path)..]))
  }

  /** Through any symlinks, the normal form of a straight path leads where the path does. */
  lemma StraightLeads(w: Platform, t: Tree, path: Path)
    requires IsPath(path) && (forall prefix :: t.root(prefix).names == []) && Straight(w, path)
    ensures Leads(w, t, Normalized(w, path)) == Leads(w, t, path)
  {
    match w {
      case Unix =>
        UnixStraightLeads(t, path);
      case Windows =>
        MeaningIsPreserved(w, path);
        assert Resolve(t.home, Normalized(w, path)) == Resolve(t.home, path);
    }
  }

  lemma UnixStraightLeads(t: Tree, path: Path)
    requires IsPath(path) && (forall prefix :: t.root(prefix).names == []) && Straight(Unix, path)
    ensures Leads(Unix, t, Normalized(Unix, path)) == Leads(Unix, t, path)
  {
    var n, start := Anchor(path), Start(t, path);
    var body, r := path[n..], RouteOf(path[n..]);
    PlainHasNoDrive(Unix, body);
    NormalizedStart(Unix, path);
    AnchorOfNormalized(Unix, path);
    FollowRoute(t, start, body);
    assert Follow(t, start, []) == start && Climb(0) == [];
    if n > 0 {
      RootedBody(Unix, path);
      if HasRoot(path) {
        assert Descent([]) == [];
        ClimbAtRoot(t, start, r.ups);
      }
    } else {
      RelativeBody(Unix, t, path, start);
    }
  }

  lemma RootedBody(w: Platform, path: Path)
    requires IsPath(path) && LastDrive(w, path[Anchor(path)..]) == None && Anchor(path) > 0
    ensures Normalized(w, path)[Anchor(Normalized(w, path))..] == Descent(RouteOf(path[Anchor(path)..]).names)
  {
    NormalizedIs(w, path);
    AnchorOfNormalized(w, path);
  }

  lemma RelativeBody(w: Platform, t: Tree, path: Path, start: Place)
    requires IsPath(path) && LastDrive(w, path[Anchor(path)..]) == None && Anchor(path) == 0
    ensures var q, r := Normalized(w, path), RouteOf(path[Anchor(path)..]);
            Follow(t, start, q[Anchor(q)..]) == Follow(t, Follow(t, start, Climb(r.ups)), Descent(r.names))
  {
    NormalizedIs(w, path);
    AnchorOfNormalized(w, path);
    var q, r := Normalized(w, path), RouteOf(path[Anchor(path)..]);
    assert q[0..] == q;
    if r == Route(0, []) {
      assert q == [CurDir] && [CurDir][..0] == [] && Climb(0) == [] && Descent([]) == [];
      assert Follow(t, start, []) == start;
      assert Follow(t, start, [CurDir]) == start;
    } else {
      FollowConcat(t, start, Climb(r.ups), Descent(r.names));
    }
  }

  /** Putting names back after a resolved directory changes nothing, and needs no normalisation. */
  lemma PutBack(w: Platform, fs: FileSystem, parent: Path, found: Path, names: Path)
    requires Resolves(w, fs, parent, found) && Plain(w, names) && forall i | 0 <= i < |names| :: names[i].Normal?
    ensures Same(PushAll(w, found, names), found + names)
    ensures Same(Normalized(w, found + names), found + names)
    ensures Leads(w, fs.tree, found + names) == Follow(fs.tree, Leads(w, fs.tree, parent), names)
  {
    PlaceIsPath(Leads(w, fs.tree, parent), found);
    PushedNames(w, found, names);
    PutBackIsNormal(w, found, names);
    LeadsNames(w, fs.tree, found, names);
  }

  lemma PlaceIsPath(p: Place, found: Path)
    requires Same(found, PathOf(p))
    ensures IsPath(found) && IsNormalForm(found) && HasRoot(found) && found != []
    ensures PrefixOf(found) == p.prefix && Anchor(found) == |StartOf(p.prefix, true)|
    ensures Same(found[Anchor(found)..], Descent(p.names))
  {
    assert found[Anchor(found)..] == Descent(p.names);
  }

  lemma PutBackIsNormal(w: Platform, found: Path, names: Path)
    requires IsPath(found) && IsNormalForm(found) && HasRoot(found) && Plain(w, found) && Plain(w, names)
    requires forall i | 0 <= i < |names| :: names[i].Normal?
    ensures Same(Normalized(w, found + names), found + names)
  {
    AnchorOfJoined(found, names);
    PlainAfter(w, found, names);
    FixedPoints(w, found + names);
  }

  /** Names at the end of a path are followed from where the front leads. */
  lemma LeadsNames(w: Platform, t: Tree, front: Path, names: Path)
    requires IsPath(front) && front != [] && forall i | 0 <= i < |names| :: names[i].Normal?
    ensures Leads(w, t, front + names) == Follow(t, Leads(w, t, front), names)
  {
    AnchorOfJoined(front, names);
    StartsAlike(front, names);
    SliceOfJoined(front, names, Anchor(front));
    match w {
      case Unix =>
        FollowConcat(t, Start(t, front), front[Anchor(front)..], names);
      case Windows =>
        var home := if HasRoot(front) then [] else t.home(PrefixOf(front));
        WalkNames(home, front[Anchor(front)..], names);
        DescentConcat(Walk(home, front[Anchor(front)..]), NamesOf(names));
        FollowConcat(t, t.root(PrefixOf(front)), Descent(Walk(home, front[Anchor(front)..])), names);
    }
  }

  function NamesOf(body: Path): (names: seq<Name>)
    requires forall i | 0 <= i < |body| :: body[i].Normal?
    ensures Descent(names) == body
  {
    seq(|body|, i requires 0 <= i < |body| => body[i].name)
  }

  lemma {:induction false} WalkNames(start: seq<Name>, front: Path, names: Path)
    requires forall i | 0 <= i < |names| :: names[i].Normal?
    ensures Same(Walk(start, front + names), Walk(start, front) + NamesOf(names))
  {
    if names == [] {
      assert front + names == front;
      ConcatEmpty(Walk(start, front));
    } else {
      var n := |names| - 1;
      WalkNames(start, front, names[..n]);
      FrontOfJoined(front, names);
      NamesGrow(names);
      Associate(Walk(start, front), NamesOf(names[..n]), [names[n].name]);
    }
  }

  lemma FrontOfJoined(front: Path, names: Path)
    requires names != []
    ensures var all := front + names;
            Same(all[..|all| - 1], front + names[..|names| - 1]) && all[|all| - 1] == names[|names| - 1]
  {
    assert (front + names)[..|front + names| - 1] == front + names[..|names| - 1];
  }

  lemma NamesGrow(names: Path)
    requires names != [] && forall i | 0 <= i < |names| :: names[i].Normal?
    ensures Same(NamesOf(names), NamesOf(names[..|names| - 1]) + [names[|names| - 1].name])
  {
    assert NamesOf(names) == NamesOf(names[..|names| - 1]) + [names[|names| - 1].name];
  }

  lemma {:induction false} WalkDescent(names: seq<Name>)
    ensures Same(Walk([], Descent(names)), names)
  {
    if names != [] {
      var n := |names| - 1;
      WalkDescent(names[..n]);
      assert Descent(names)[..n] == Descent(names[..n]);
      assert names[..n] + [names[n]] == names;
    }
  }

  lemma DescentConcat(a: seq<Name>, b: seq<Name>)
    ensures Same(Descent(a + b), Descent(a) + Descent(b))
  {
    assert Descent(a + b) == Descent(a) + Descent(b);
  }

  lemma {:induction false} PushedNames(w: Platform, found: Path, names: Path)
    requires Plain(w, names) && forall i | 0 <= i < |names| :: names[i].Normal?
    ensures Same(PushAll(w, found, names), found + names)
  {
    if names == [] {
      assert found + names == found;
    } else {
      var n := |names| - 1;
      PushedNames(w, found, names[..n]);
      assert found + names[..n] + [names[n]] == found + names;
    }
  }

  lemma StartsAlike(front: Path, names: Path)
    requires IsPath(front) && front != [] && forall i | 0 <= i < |names| :: names[i].Normal?
    ensures PrefixOf(front + names) == PrefixOf(front) && HasRoot(front + names) == HasRoot(front)
  {
    AnchorOfJoined(front, names);
    AnchorsAgree(front + names, front);
  }

  ghost predicate NamesFrom(lexical: Path, k: nat) {
    k <= |lexical| && forall i | k <= i < |lexical| :: lexical[i].Normal?
  }

  lemma PutBackFrom(w: Platform, fs: FileSystem, lexical: Path, k: nat)
    requires IsPath(lexical) && Lawful(w, fs) && Plain(w, lexical) && k < |lexical| && NamesFrom(lexical, k)
    requires fs.canonicalize(lexical[..k]).Some?
    ensures var found, t := fs.canonicalize(lexical[..k]).value, fs.tree;
            && Same(Normalized(w, PushAll(w, found, lexical[k..])), found + lexical[k..])
            && found == PathOf(Leads(w, t, lexical[..k]))
            && Leads(w, t, found + lexical[k..]) == Follow(t, Leads(w, t, lexical[..k]), lexical[k..])
            && Leads(w, t, lexical) == Follow(t, Leads(w, t, lexical[..k]), lexical[k..])
  {
    var found := fs.canonicalize(lexical[..k]).value;
    assert Resolves(w, fs, lexical[..k], found);
    SplitAt(lexical, k);
    PlainAfter(w, lexical[..k], lexical[k..]);
    PutBack(w, fs, lexical[..k], found, lexical[k..]);
    LeadsNames(w, fs.tree, lexical[..k], lexical[k..]);
  }

  lemma SplitAt(path: Path, k: nat)
    requires IsPath(path) && k <= |path|
    ensures IsPath(path[..k]) && Same(path[..k] + path[k..], path)
  {
    assert path[..k] + path[k..] == path;
  }

  /** How much of the lexical path is the nearest existing directory above the names at its end. */
  function Nearest(fs: FileSystem, lexical: Path, k: nat): (nearest: Option<nat>)
    requires k <= |lexical|
    ensures nearest.Some? ==> nearest.value < k && lexical[nearest.value].Normal?
    ensures nearest.Some? ==> fs.canonicalize(lexical[..nearest.value]).Some?
    ensures nearest.Some? ==> forall i | nearest.value <= i < k :: lexical[i].Normal?
  {
    if k == 0 || !lexical[k - 1].Normal? then None
    else if fs.canonicalize(lexical[..k - 1]).Some? then Some(k - 1)
    else Nearest(fs, lexical, k - 1)
  }

  lemma {:induction false} ResolvedIs(w: Platform, fs: FileSystem, lexical: Path, k: nat)
    requires k <= |lexical|
    ensures Same(ResolvedFrom(w, fs, lexical, k),
                 match Nearest(fs, lexical, k)
                 case Some(n) => Normalized(w, PushAll(w, fs.canonicalize(lexical[..n]).value, lexical[n..]))
                 case None => lexical)
    decreases k
  {
    if k > 0 && lexical[k - 1].Normal? && fs.canonicalize(lexical[..k - 1]) == None {
      ResolvedIs(w, fs, lexical, k - 1);
    }
  }

  lemma ResolvedLeads(w: Platform, fs: FileSystem, lexical: Path, k: nat)
    requires IsPath(lexical) && Lawful(w, fs) && Plain(w, lexical) && NamesFrom(lexical, k)
    ensures Same(Leads(w, fs.tree, ResolvedFrom(w, fs, lexical, k)), Leads(w, fs.tree, lexical))
  {
    ResolvedIs(w, fs, lexical, k);
    if Nearest(fs, lexical, k).Some? {
      FoundLeads(w, fs, lexical, Nearest(fs, lexical, k).value);
    }
  }

  lemma FoundLeads(w: Platform, fs: FileSystem, lexical: Path, k: nat)
    requires IsPath(lexical) && Lawful(w, fs) && Plain(w, lexical) && k < |lexical| && NamesFrom(lexical, k)
    requires fs.canonicalize(lexical[..k]).Some?
    ensures var joined := Normalized(w, PushAll(w, fs.canonicalize(lexical[..k]).value, lexical[k..]));
            Same(Leads(w, fs.tree, joined), Leads(w, fs.tree, lexical))
  {
    PutBackFrom(w, fs, lexical, k);
  }

  lemma StraightIsCompared(w: Platform, fs: FileSystem, path: Path)
    requires IsPath(path) && Lawful(w, fs) && Straight(w, path)
    ensures Leads(w, fs.tree, Compared(w, fs, path)) == Leads(w, fs.tree, path)
  {
    if fs.canonicalize(path).Some? {
      assert Resolves(w, fs, path, fs.canonicalize(path).value);
    } else {
      var q := Normalized(w, path);
      StraightLeads(w, fs.tree, path);
      StraightIsPlain(w, path);
      ResolvedLeads(w, fs, q, |q|);
    }
  }

  lemma StraightIsPlain(w: Platform, path: Path)
    requires IsPath(path) && Straight(w, path)
    ensures IsPath(Normalized(w, path)) && Plain(w, Normalized(w, path))
  {
    AnchorOfNormalized(w, path);
    NormalizedIsPlain(w, path);
    KeptIsSettled(w, path);
  }

  // ----- When the compared path is the place it leads to

  /** The nearest existing directory is resolved and the missing names are put back below it; with none, the lexical
      path is the result. */
  lemma MissingPathIs(w: Platform, fs: FileSystem, path: Path)
    requires IsPath(path) && Lawful(w, fs) && Plain(w, Normalized(w, path))
    ensures var q := Normalized(w, path);
            ResolvedFrom(w, fs, q, |q|) ==
            match Nearest(fs, q, |q|)
            case Some(n) => PathOf(Leads(w, fs.tree, q[..n])) + q[n..]
            case None => q
  {
    var q := Normalized(w, path);
    AnchorOfNormalized(w, path);
    ResolvedIs(w, fs, q, |q|);
    if Nearest(fs, q, |q|).Some? {
      PutBackFrom(w, fs, q, Nearest(fs, q, |q|).value);
    }
  }

  /** The names lead, from a place, to just what they spell. */
  predicate NoLinks(t: Tree, from: Place, names: Path) {
    PathOf(Follow(t, from, names)) == PathOf(from) + names
  }

  predicate IsOwnPlace(w: Platform, t: Tree, path: Path) {
    path == PathOf(Leads(w, t, path))
  }

  /** The path exists; or the names put back are no links; or nothing above it exists, and its normal form is a place. */
  predicate Settles(w: Platform, fs: FileSystem, path: Path) {
    var q := Normalized(w, path);
    fs.canonicalize(path).Some? ||
    match Nearest(fs, q, |q|)
    case Some(n) => NoLinks(fs.tree, Leads(w, fs.tree, q[..n]), q[n..])
    case None => IsOwnPlace(w, fs.tree, q)
  }

  ghost predicate StraightOrExists(w: Platform, fs: FileSystem, path: Path) {
    Straight(w, path) || fs.canonicalize(path).Some?
  }

  /** The compared path of a path that is straight or exists is the place where that leads exactly then. */
  lemma ComparedIsPlace(w: Platform, fs: FileSystem, path: Path)
    requires IsPath(path) && Lawful(w, fs) && StraightOrExists(w, fs, path)
    ensures Compared(w, fs, path) == PathOf(Leads(w, fs.tree, path)) <==> Settles(w, fs, path)
  {
    if fs.canonicalize(path).Some? {
      assert Resolves(w, fs, path, fs.canonicalize(path).value);
    } else {
      var q := Normalized(w, path);
      StraightIsPlain(w, path);
      StraightLeads(w, fs.tree, path);
      MissingPathIs(w, fs, path);
      if Nearest(fs, q, |q|).Some? {
        var n := Nearest(fs, q, |q|).value;
        PutBackFrom(w, fs, q, n);
      }
    }
  }
}
