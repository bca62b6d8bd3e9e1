/**
 * Which compared paths lead where the original does, whatever the links and whatever exists. Every
 * other path goes astray in some file system in which little exists.
 */
module AstrayPath {
  import opened Basics
  import opened LexicalPath
  import opened PathMeaning
  import opened ComparedPath

  /** There are no links, and every current directory is `depth` directories of one name down from its root. */
  function Deep(name: Name, depth: nat): Tree {
    Tree((prefix: Option<Name>) => Place(prefix, []), Everywhere(name, depth),
         (here: Place, next: Name) => here.(names := here.names + [next]))
  }

  predicate InHome(path: Path, name: Name, depth: nat) {
    var n := |path| - Anchor(path);
    HasRoot(path) && n <= depth && path[Anchor(path)..] == Descent(Times(name, n))
  }

  /** Only roots and current directories exist, and the directories above them. */
  function Sparse(w: Platform, name: Name, depth: nat): FileSystem {
    var t := Deep(name, depth);
    FileSystem(t, path => if NamesNothing(w, path) || InHome(path, name, depth) then Some(PathOf(Leads(w, t, path))) else None)
  }

  lemma {:induction false} FollowDeep(name: Name, depth: nat, from: Place, body: Path)
    ensures Follow(Deep(name, depth), from, body) == Place(from.prefix, Walk(from.names, body))
  {
    if body != [] {
      FollowDeep(name, depth, from, body[..|body| - 1]);
    }
  }

  /** Without links a path leads where it resolves to. */
  lemma DeepLeads(w: Platform, name: Name, depth: nat, path: Path)
    ensures Same(Leads(w, Deep(name, depth), path), Place(PrefixOf(path), Resolve(Everywhere(name, depth), path).1))
  {
    var t, root := Deep(name, depth), Place(PrefixOf(path), []);
    var home := if HasRoot(path) then [] else Times(name, depth);
    match w {
      case Unix =>
        FollowDeep(name, depth, root, Descent(home));
        WalkDescent(home);
        FollowDeep(name, depth, Start(t, path), path[Anchor(path)..]);
      case Windows =>
        FollowDeep(name, depth, root, Descent(Resolve(t.home, path).1));
        WalkDescent(Resolve(t.home, path).1);
    }
  }

  /** What exists there is a directory above a current one, or that itself. */
  lemma SparsePlace(w: Platform, name: Name, depth: nat, path: Path) returns (d: nat)
    requires NamesNothing(w, path) || InHome(path, name, depth)
    ensures d <= depth && Same(Leads(w, Deep(name, depth), path), Place(PrefixOf(path), Times(name, d)))
  {
    var body := path[Anchor(path)..];
    DeepLeads(w, name, depth, path);
    ResolveEverywhere(path, name, depth);
    if NamesNothing(w, path) {
      NamesAreKept(body);
      d := if HasRoot(path) then 0 else SaturatingSub(depth, RouteOf(body).ups);
      assert Landing(HasRoot(path), RouteOf(body), name, depth) == Times(name, d);
    } else {
      d := |body|;
      DescentRoute(Times(name, d));
      assert Landing(true, RouteOf(body), name, depth) == Times(name, d);
    }
  }

  lemma HomeResolves(w: Platform, name: Name, depth: nat, path: Path, d: nat)
    requires |name| == 1 && d <= depth && (NamesNothing(w, path) || InHome(path, name, depth))
    requires Same(Leads(w, Deep(name, depth), path), Place(PrefixOf(path), Times(name, d)))
    ensures Resolves(w, Sparse(w, name, depth), path, PathOf(Leads(w, Deep(name, depth), path)))
  {
    var found := PathOf(Place(PrefixOf(path), Times(name, d)));
    HomeLeads(w, name, depth, PrefixOf(path), d, found);
    HomeExists(w, name, depth, PrefixOf(path), d, found);
    forall k | Anchor(found) <= k <= |found|
      ensures InHome(found[..k], name, depth)
    {
      FrontInHome(found, name, depth, k);
    }
  }

  lemma HomeExists(w: Platform, name: Name, depth: nat, prefix: Option<Name>, d: nat, found: Path)
    requires |name| == 1 && d <= depth && Same(found, PathOf(Place(prefix, Times(name, d))))
    ensures InHome(found, name, depth) && Plain(w, found)
  {
    PlaceIsPath(Place(prefix, Times(name, d)), found);
    assert |found[Anchor(found)..]| == |Descent(Times(name, d))| == d;
  }

  lemma HomeLeads(w: Platform, name: Name, depth: nat, prefix: Option<Name>, d: nat, found: Path)
    requires Same(found, PathOf(Place(prefix, Times(name, d))))
    ensures Same(Leads(w, Deep(name, depth), found), Place(prefix, Times(name, d)))
  {
    PlaceIsPath(Place(prefix, Times(name, d)), found);
    DeepLeads(w, name, depth, found);
    WalkDescent(Times(name, d));
  }

  lemma FrontInHome(found: Path, name: Name, depth: nat, k: nat)
    requires InHome(found, name, depth) && Anchor(found) <= k <= |found|
    ensures InHome(found[..k], name, depth)
  {
    var n := Anchor(found);
    assert found[..k][n..] == found[n..][..k - n];
    assert Descent(Times(name, |found| - n))[..k - n] == Descent(Times(name, k - n));
  }

  lemma SparseIsLawful(w: Platform, name: Name, depth: nat)
    requires |name| == 1
    ensures Lawful(w, Sparse(w, name, depth)) && forall prefix :: HasDrive(w, Sparse(w, name, depth), prefix)
  {
    var fs := Sparse(w, name, depth);
    forall path | fs.canonicalize(path).Some?
      ensures Resolves(w, fs, path, fs.canonicalize(path).value)
    {
      var d := SparsePlace(w, name, depth, path);
      HomeResolves(w, name, depth, path, d);
    }
  }

  lemma NotInHome(w: Platform, path: Path, name: Name, depth: nat)
    requires |name| == 1 && InHome(path, name, depth)
    ensures KeepsMeaning(w, path)
  {
    var body := path[Anchor(path)..];
    assert Plain(w, body);
    PlainHasNoDrive(w, body);
  }

  /** A path whose meaning is not kept goes astray where it does not exist. */
  lemma MeaningGoesAstray(w: Platform, path: Path) returns (fs: FileSystem)
    requires IsPath(path) && !KeepsMeaning(w, path) && !NamesNothing(w, path) && !ReadsAgain(w, path)
    ensures Lawful(w, fs) && HasDrive(w, fs, PrefixOf(path))
    ensures Leads(w, fs.tree, Compared(w, fs, path)) != Leads(w, fs.tree, path)
  {
    var q := Normalized(w, path);
    MeaningIsPreserved(w, path);
    SameMeaning(q, path);
    var name, depth := TellingHome(q, path);
    fs := Sparse(w, name, depth);
    SparseIsLawful(w, name, depth);
    if InHome(path, name, depth) {
      NotInHome(w, path, name, depth);
    }
    AnchorOfNormalized(w, path);
    NormalizedIsPlain(w, path);
    ResolvedLeads(w, fs, q, |q|);
    DeepLeads(w, name, depth, q);
    DeepLeads(w, name, depth, path);
  }

  /** No name is the link's, and those that read as a drive are no longer than it. */
  ghost predicate Avoids(w: Platform, path: Path, link: Name) {
    forall i | 0 <= i < |path| && path[i].Normal? ::
      path[i].name != link && (DriveOf(w, path[i].name).Some? ==> |path[i].name| <= |link|)
  }

  /** What a name that reads as a drive leaves is shorter than the name. */
  lemma AvoidsPush(w: Platform, buffer: Path, rooted: bool, c: Component, link: Name)
    requires Avoids(w, buffer, link) && Avoids(w, [c], link)
    ensures Avoids(w, Absorb(w, buffer, rooted, c), link)
  {
    assert [c][0] == c;
  }

  lemma {:induction false} AvoidsAll(w: Platform, buffer: Path, rooted: bool, body: Path, link: Name)
    requires Avoids(w, buffer, link) && Avoids(w, body, link)
    ensures Avoids(w, AbsorbAll(w, buffer, rooted, body), link)
  {
    if body != [] {
      var n := |body| - 1;
      AvoidsAll(w, buffer, rooted, body[..n], link);
      AvoidsPush(w, AbsorbAll(w, buffer, rooted, body[..n]), rooted, body[n], link);
    }
  }

  lemma AvoidsNormalized(w: Platform, path: Path, link: Name)
    requires Avoids(w, path, link)
    ensures Avoids(w, Normalized(w, path), link)
  {
    AvoidsAll(w, path[..Anchor(path)], Anchor(path) > 0, path[Anchor(path)..], link);
  }

  lemma {:induction false} AvoidsResolved(w: Platform, fs: FileSystem, lexical: Path, k: nat, link: Name)
    requires k <= |lexical| && Avoids(w, lexical, link)
    requires forall path | fs.canonicalize(path).Some? :: Avoids(w, fs.canonicalize(path).value, link)
    ensures Avoids(w, ResolvedFrom(w, fs, lexical, k), link)
    decreases k
  {
    if k > 0 && lexical[k - 1].Normal? {
      match fs.canonicalize(lexical[..k - 1])
      case Some(found) =>
        AvoidsAll(w, found, true, lexical[k - 1..], link);
        AvoidsNormalized(w, PushAll(w, found, lexical[k - 1..]), link);
      case None => AvoidsResolved(w, fs, lexical, k - 1, link);
    }
  }

  lemma SparseAvoids(w: Platform, path: Path, link: Name)
    requires NamesNothing(w, path) || InHome(path, "a", 0)
    ensures Avoids(w, PathOf(Leads(w, Deep("a", 0), path)), link)
  {
    var d := SparsePlace(w, "a", 0, path);
  }

  /** A name that reads as a drive, stays, and leaves another, is gone from what is left. */
  lemma DriveNameIsGone(w: Platform, path: Path) returns (link: Name)
    requires IsPath(path) && ReadsAgain(w, path)
    ensures link in RouteOf(path[Anchor(path)..]).names && Avoids(w, Normalized(w, path), link)
  {
    var body := path[Anchor(path)..];
    var l := LastDrive(w, body).value;
    var front, name := LastDriveSplits(w, body);
    link := name;
    var r := RouteOf(front + [Normal(name)]);
    RouteConcat(front + [Normal(name)], l.after);
    RouteOfNamed(front, name);
    assert Joined(r, RouteOf(l.after)).names[|r.names| - 1] == name;
    NormalizedIs(w, path);
    DriveFormIs(l.drive, Anchor(path) > 0, RouteOf(l.after));
    RouteIsPlain(w, l.after);
    DriveBodyAvoids(w, name, l.drive, Anchor(path) > 0, RouteOf(l.after));
  }

  lemma DriveBodyAvoids(w: Platform, link: Name, d: Drive, rooted: bool, r: Route)
    requires DriveOf(w, link) == Some(d) && Plain(w, Descent(r.names))
    requires d.rest != [] && d.rest[0].Normal? && r.ups == 0
    ensures Avoids(w, [Prefix(d.prefix)] + DriveBody(d, rooted, r), link)
  {
    var names := Descent(r.names);
    forall i | 0 <= i < |names|
      ensures names[i].name != link && DriveOf(w, names[i].name) == None
    {
    }
  }

  /** Where current directories are roots, a name that the compared path lacks is missing from where that leads. */
  lemma NameIsMissed(w: Platform, path: Path, compared: Path, link: Name)
    requires link in RouteOf(path[Anchor(path)..]).names && Avoids(w, compared, link)
    ensures Leads(w, Deep("a", 0), compared) != Leads(w, Deep("a", 0), path)
  {
    var r := RouteOf(compared[Anchor(compared)..]);
    DeepLeads(w, "a", 0, path);
    DeepLeads(w, "a", 0, compared);
    ResolveEverywhere(path, "a", 0);
    ResolveEverywhere(compared, "a", 0);
    RouteNames(compared[Anchor(compared)..]);
    forall i | 0 <= i < |r.names|
      ensures r.names[i] != link
    {
      assert Normal(r.names[i]) in compared[Anchor(compared)..];
    }
    FromRoot(HasRoot(path), RouteOf(path[Anchor(path)..]));
    FromRoot(HasRoot(compared), r);
  }

  lemma FromRoot(rooted: bool, r: Route)
    ensures Same(Landing(rooted, r, "a", 0), r.names)
  {
    assert Landing(rooted, r, "a", 0) == r.names;
  }

  lemma DriveNameGoesAstray(w: Platform, path: Path) returns (fs: FileSystem)
    requires IsPath(path) && !KeepsMeaning(w, path) && !NamesNothing(w, path) && ReadsAgain(w, path)
    ensures Lawful(w, fs) && HasDrive(w, fs, PrefixOf(path))
    ensures Leads(w, fs.tree, Compared(w, fs, path)) != Leads(w, fs.tree, path)
  {
    var q := Normalized(w, path);
    fs := Sparse(w, "a", 0);
    SparseIsLawful(w, "a", 0);
    if InHome(path, "a", 0) {
      NotInHome(w, path, "a", 0);
    }
    var link := DriveNameIsGone(w, path);
    forall p | fs.canonicalize(p).Some?
      ensures Avoids(w, fs.canonicalize(p).value, link)
    {
      SparseAvoids(w, p, link);
    }
    AvoidsResolved(w, fs, q, |q|, link);
    NameIsMissed(w, path, Compared(w, fs, path), link);
  }

  /** Every name leads on in a new file system: the prefix counts them. */
  function Counting(): Tree {
    Tree((prefix: Option<Name>) => Place(Some(""), []), (prefix: Option<Name>) => [],
         (here: Place, name: Name) =>
           Place(Some((if here.prefix.Some? then here.prefix.value else "") + "/"), here.names + [name]))
  }

  /** On Unix, where names are counted, and only roots exist. */
  function Counted(): FileSystem {
    FileSystem(Counting(), path => if NamesNothing(Unix, path) then Some(PathOf(Leads(Unix, Counting(), path))) else None)
  }

  lemma {:induction false} CountsNames(from: Place, body: Path)
    requires from == Place(Some(""), [])
    ensures var p := Follow(Counting(), from, body);
            p.prefix.Some? && |p.prefix.value| == NamesIn(body) && (NamesIn(body) == 0 ==> p == from)
  {
    if body != [] {
      CountsNames(from, body[..|body| - 1]);
    }
  }

  lemma CountedStart(path: Path)
    ensures Start(Counting(), path) == Place(Some(""), [])
    ensures Leads(Unix, Counting(), path) == Follow(Counting(), Place(Some(""), []), path[Anchor(path)..])
  {
    assert Descent([]) == [];
  }

  lemma CountedIsLawful()
    ensures Lawful(Unix, Counted()) && forall prefix :: HasDrive(Unix, Counted(), prefix)
  {
    var fs, found := Counted(), PathOf(Place(Some(""), []));
    PlaceIsPath(Place(Some(""), []), found);
    assert found[..2] == found && found[2..] == [];
    forall path | fs.canonicalize(path).Some?
      ensures Resolves(Unix, fs, path, fs.canonicalize(path).value)
    {
      CountedStart(path);
      CountsNames(Place(Some(""), []), path[Anchor(path)..]);
      CountedStart(found);
    }
  }

  lemma ClimbGoesAstray(path: Path) returns (fs: FileSystem)
    requires IsPath(path) && ClimbsAfterName(path[Anchor(path)..])
    ensures Lawful(Unix, fs) && HasDrive(Unix, fs, PrefixOf(path))
    ensures Leads(Unix, fs.tree, Compared(Unix, fs, path)) != Leads(Unix, fs.tree, path)
  {
    var q, body := Normalized(Unix, path), path[Anchor(path)..];
    fs := Counted();
    CountedIsLawful();
    NamesInAny(body);
    AnchorOfNormalized(Unix, path);
    ResolvedLeads(Unix, fs, q, |q|);
    CountedStart(path);
    CountedStart(q);
    CountsNames(Place(Some(""), []), body);
    CountsNames(Place(Some(""), []), q[Anchor(q)..]);
    NamesAreKept(body);
    NamesLeft(Unix, path);
  }

  lemma NamesLeft(w: Platform, path: Path)
    requires IsPath(path) && Plain(w, path[Anchor(path)..])
    ensures var q := Normalized(w, path); NamesIn(q[Anchor(q)..]) == |RouteOf(path[Anchor(path)..]).names|
  {
    var q := Normalized(w, path);
    PlainHasNoDrive(w, path[Anchor(path)..]);
    AnchorOfNormalized(w, path);
    NormalizedIsNormalForm(w, path);
    NormalFormDescends(q);
    NamesAreKept(q[Anchor(q)..]);
  }

  lemma NormalFormDescends(q: Path)
    requires IsNormalForm(q)
    ensures !ClimbsAfterName(q[Anchor(q)..])
  {
    var n := Anchor(q);
    var body := q[n..];
    forall i, j | 0 <= i < j < |body| && body[j].ParentDir?
      ensures !body[i].Normal?
    {
      assert body[i] == q[n + i] && body[j] == q[n + j];
    }
  }

  /** Where the drive of a path exists, the compared path leads where the original does, whatever the links and whatever
      else exists, exactly when the path is straight or names nothing. */
  lemma ComparedLeadsThere(w: Platform, path: Path)
    requires IsPath(path)
    ensures (forall fs | Lawful(w, fs) && HasDrive(w, fs, PrefixOf(path)) ::
               Leads(w, fs.tree, Compared(w, fs, path)) == Leads(w, fs.tree, path))
            <==> Straight(w, path) || NamesNothing(w, path)
  {
    if Straight(w, path) || NamesNothing(w, path) {
      forall fs | Lawful(w, fs) && HasDrive(w, fs, PrefixOf(path))
        ensures Leads(w, fs.tree, Compared(w, fs, path)) == Leads(w, fs.tree, path)
      {
        if fs.canonicalize(path).Some? {
          assert Resolves(w, fs, path, fs.canonicalize(path).value);
        } else {
          StraightIsCompared(w, fs, path);
        }
      }
    } else if w.Unix? && ClimbsAfterName(path[Anchor(path)..]) {
      var fs := ClimbGoesAstray(path);
    } else if ReadsAgain(w, path) {
      var fs := DriveNameGoesAstray(w, path);
    } else {
      var fs := MeaningGoesAstray(w, path);
    }
  }
}
