/**
 * Lexical path normalisation: what it returns, when that is a normal form, and when it reaches the
 * same place.
 *
 * A path is the component stream its iterator yields. A prefix is known by what it parses to, with
 * drive letters in upper case. On Windows a file name that starts like a drive is no plain name to
 * a buffer it is pushed onto: it replaces the buffer.
 */
module LexicalPath {
  import opened Basics

  datatype Platform = Unix | Windows

  type Name = string

  datatype Component =
    | Prefix(text: Name)
    | RootDir
    | CurDir
    | ParentDir
    | Normal(name: Name)

  type Path = seq<Component>

  /** How many components come before the body: a prefix, a root, both or none. */
  function Anchor(path: Path): (n: nat)
    ensures n <= |path|
  {
    var p := if path != [] && path[0].Prefix? then 1 else 0;
    if p < |path| && path[p].RootDir? then p + 1 else p
  }

  /** The streams an iterator yields: an anchor, then nothing but names and dots. */
  ghost predicate IsPath(path: Path) {
    forall i | Anchor(path) <= i < |path| :: !path[i].Prefix? && !path[i].RootDir?
  }

  // ----- Normalisation

  /** A name that reads as a drive: its prefix, and at most one component after it. */
  datatype Drive = Drive(prefix: Name, rest: Path)

  predicate IsLetter(c: char) {
    'A' <= c <= 'Z' || 'a' <= c <= 'z'
  }

  function UpperCase(c: char): char {
    if 'a' <= c <= 'z' then ((c as int) - 32) as char else c
  }

  function DriveOf(w: Platform, name: Name): (drive: Option<Drive>)
    ensures drive.Some? ==> |drive.value.rest| <= 1
    ensures drive.Some? && drive.value.rest != [] && drive.value.rest[0].Normal? ==>
              |drive.value.rest[0].name| < |name|
  {
    if w.Windows? && |name| >= 2 && IsLetter(name[0]) && name[1] == ':' then
      Some(Drive([UpperCase(name[0]), ':'], RestOf(name[2..])))
    else None
  }

  function RestOf(rest: Name): Path {
    if rest == "" then [] else if rest == "." then [CurDir] else if rest == ".." then [ParentDir] else [Normal(rest)]
  }

  function Read(d: Drive): Path {
    [Prefix(d.prefix)] + d.rest
  }

  /** A name that reads as a drive replaces the buffer. */
  function Push(w: Platform, buffer: Path, name: Name): Path {
    match DriveOf(w, name)
    case None => buffer + [Normal(name)]
    case Some(d) => Read(d)
  }

  /** What one body component does to the buffer. */
  function Absorb(w: Platform, buffer: Path, rooted: bool, c: Component): Path {
    match c
    case CurDir => buffer
    case ParentDir =>
      if buffer != [] && buffer[|buffer| - 1].Normal? then buffer[..|buffer| - 1]
      else if (buffer == [] || buffer[|buffer| - 1].ParentDir?) && !rooted then buffer + [ParentDir]
      else buffer
    case Normal(name) => Push(w, buffer, name)
    case _ => buffer + [c]
  }

  function AbsorbAll(w: Platform, buffer: Path, rooted: bool, body: Path): Path {
    if body == [] then buffer
    else Absorb(w, AbsorbAll(w, buffer, rooted, body[..|body| - 1]), rooted, body[|body| - 1])
  }

  function Normalized(w: Platform, path: Path): Path {
    var n := Anchor(path);
    var buffer := AbsorbAll(w, path[..n], n > 0, path[n..]);
    if buffer == [] then [CurDir] else buffer
  }

  /** The buffer once the first i components were seen. */
  ghost function BufferAfter(w: Platform, path: Path, i: nat): Path
    requires i <= |path|
  {
    var n := Anchor(path);
    if i <= n then path[..i] else AbsorbAll(w, path[..n], n > 0, path[n..i])
  }

  lemma BufferStep(w: Platform, path: Path, i: nat)
    requires IsPath(path) && i < |path|
    ensures (path[i].Prefix? || path[i].RootDir?) == (i < Anchor(path))
    ensures Same(BufferAfter(w, path, i + 1),
                 if i < Anchor(path) then BufferAfter(w, path, i) + [path[i]]
                 else Absorb(w, BufferAfter(w, path, i), Anchor(path) > 0, path[i]))
  {
    var n := Anchor(path);
    if i < n {
      assert path[..i + 1] == path[..i] + [path[i]];
    } else {
      var body := path[n..i + 1];
      assert body[..|body| - 1] == path[n..i] && body[|body| - 1] == path[i];
      assert AbsorbAll(w, path[..n], n > 0, body)
          == Absorb(w, AbsorbAll(w, path[..n], n > 0, path[n..i]), n > 0, path[i]);
      if i == n {
        assert path[n..i] == [];
      }
    }
  }

  lemma BufferAfterAll(w: Platform, path: Path)
    ensures Same(BufferAfter(w, path, |path|), AbsorbAll(w, path[..Anchor(path)], Anchor(path) > 0, path[Anchor(path)..]))
  {
    var n := Anchor(path);
    assert path[n..|path|] == path[n..];
    if n == |path| {
      assert path[n..] == [];
    }
  }

  method NormalizePathLexically(w: Platform, path: Path) returns (normalized: Path)
    requires IsPath(path)
    ensures normalized == Normalized(w, path)
  {
    normalized := [];
    var rooted := false;
    for i := 0 to |path|
      invariant rooted == (Anchor(path) > 0 && i > 0)
      invariant Same(normalized, BufferAfter(w, path, i))
    {
      BufferStep(w, path, i);
      match path[i] {
        case Prefix(_) =>
          normalized := normalized + [path[i]];
          rooted := true;
        case RootDir =>
          normalized := normalized + [path[i]];
          rooted := true;
        case CurDir =>
        case Normal(name) =>
          normalized := Push(w, normalized, name);
        case ParentDir =>
          if normalized != [] && normalized[|normalized| - 1].Normal? {
            normalized := normalized[..|normalized| - 1];
          } else if (normalized == [] || normalized[|normalized| - 1].ParentDir?) && !rooted {
            normalized := normalized + [ParentDir];
          }
      }
    }
    BufferAfterAll(w, path);
    if normalized == [] {
      normalized := [CurDir];
    }
  }

  // ----- The body as a climb followed by a descent

  /** How far a body climbs before it descends, and the names it descends through. */
  datatype Route = Route(ups: nat, names: seq<Name>)

  function Extend(r: Route, c: Component): Route {
    match c
    case Normal(name) => r.(names := r.names + [name])
    case ParentDir => if r.names != [] then r.(names := r.names[..|r.names| - 1]) else r.(ups := r.ups + 1)
    case _ => r
  }

  function RouteOf(body: Path): Route {
    if body == [] then Route(0, []) else Extend(RouteOf(body[..|body| - 1]), body[|body| - 1])
  }

  function Climb(ups: nat): Path {
    seq(ups, i => ParentDir)
  }

  function Descent(names: seq<Name>): Path {
    seq(|names|, i requires 0 <= i < |names| => Normal(names[i]))
  }

  ghost predicate IsBody(body: Path) {
    forall i | 0 <= i < |body| :: !body[i].Prefix? && !body[i].RootDir?
  }

  /** No name reads as a drive. */
  ghost predicate Plain(w: Platform, body: Path) {
    forall i | 0 <= i < |body| :: body[i].Normal? ==> DriveOf(w, body[i].name) == None
  }

  /** The last name that reads as a drive, and what comes after it. */
  datatype LastRead = LastRead(drive: Drive, after: Path)

  function LastDrive(w: Platform, body: Path): Option<LastRead> {
    if body == [] then None else
      var n := |body| - 1;
      if body[n].Normal? && DriveOf(w, body[n].name).Some? then Some(LastRead(DriveOf(w, body[n].name).value, []))
      else
        match LastDrive(w, body[..n])
        case None => None
        case Some(l) => Some(LastRead(l.drive, l.after + [body[n]]))
  }

  lemma {:induction false} LastDriveSplits(w: Platform, body: Path) returns (front: Path, name: Name)
    requires LastDrive(w, body).Some?
    ensures var l := LastDrive(w, body).value;
            body == front + [Normal(name)] + l.after && DriveOf(w, name) == Some(l.drive) && Plain(w, l.after)
  {
    var n := |body| - 1;
    if body[n].Normal? && DriveOf(w, body[n].name).Some? {
      front, name := body[..n], body[n].name;
      assert body == front + [Normal(name)] + [];
    } else {
      front, name := LastDriveSplits(w, body[..n]);
      var after := LastDrive(w, body[..n]).value.after;
      assert body == body[..n] + [body[n]] == front + [Normal(name)] + (after + [body[n]]);
    }
  }

  lemma {:induction false} PlainHasNoDrive(w: Platform, body: Path)
    ensures Plain(w, body) <==> LastDrive(w, body) == None
  {
    if body != [] {
      PlainHasNoDrive(w, body[..|body| - 1]);
      assert body == body[..|body| - 1] + [body[|body| - 1]];
    }
  }

  lemma AbsorbRelative(w: Platform, r: Route, c: Component)
    requires !c.Prefix? && !c.RootDir? && Plain(w, [c])
    ensures Same(Absorb(w, Climb(r.ups) + Descent(r.names), false, c),
                 Climb(Extend(r, c).ups) + Descent(Extend(r, c).names))
  {
    var buffer := Climb(r.ups) + Descent(r.names);
    assert c == [c][0];
    match c {
      case Normal(name) =>
        assert Descent(r.names + [name]) == Descent(r.names) + [c];
        assert buffer + [c] == Climb(r.ups) + Descent(r.names + [name]);
      case ParentDir =>
        if r.names == [] {
          assert Climb(r.ups + 1) == Climb(r.ups) + [c];
          assert buffer == Climb(r.ups);
          assert buffer + [c] == Climb(r.ups + 1) + Descent([]);
        } else {
          assert buffer[..|buffer| - 1] == Climb(r.ups) + Descent(r.names[..|r.names| - 1]);
        }
      case _ =>
    }
  }

  lemma AbsorbRooted(w: Platform, anchor: Path, r: Route, c: Component)
    requires !c.Prefix? && !c.RootDir? && Plain(w, [c])
    requires anchor != [] && (anchor[|anchor| - 1].Prefix? || anchor[|anchor| - 1].RootDir?)
    ensures Same(Absorb(w, anchor + Descent(r.names), true, c), anchor + Descent(Extend(r, c).names))
  {
    var buffer := anchor + Descent(r.names);
    assert c == [c][0];
    match c {
      case Normal(name) =>
        assert Descent(r.names + [name]) == Descent(r.names) + [c];
        assert buffer + [c] == anchor + Descent(r.names + [name]);
      case ParentDir =>
        if r.names == [] {
          assert buffer == anchor;
        } else {
          assert buffer[..|buffer| - 1] == anchor + Descent(r.names[..|r.names| - 1]);
        }
      case _ =>
    }
  }

  /** A relative body normalises to its climb and descent. */
  lemma {:induction false} AbsorbAllRelative(w: Platform, body: Path)
    requires IsBody(body) && Plain(w, body)
    ensures Same(AbsorbAll(w, [], false, body), Climb(RouteOf(body).ups) + Descent(RouteOf(body).names))
  {
    if body == [] {
      assert Climb(0) + Descent([]) == [];
    } else {
      var n := |body| - 1;
      AbsorbAllRelative(w, body[..n]);
      AbsorbRelative(w, RouteOf(body[..n]), body[n]);
    }
  }

  /** Below an anchor the climb is dropped. */
  lemma {:induction false} AbsorbAllRooted(w: Platform, anchor: Path, body: Path)
    requires IsBody(body) && Plain(w, body)
    requires anchor != [] && (anchor[|anchor| - 1].Prefix? || anchor[|anchor| - 1].RootDir?)
    ensures Same(AbsorbAll(w, anchor, true, body), anchor + Descent(RouteOf(body).names))
  {
    if body == [] {
      assert anchor + Descent([]) == anchor;
    } else {
      var n := |body| - 1;
      AbsorbAllRooted(w, anchor, body[..n]);
      AbsorbRooted(w, anchor, RouteOf(body[..n]), body[n]);
    }
  }

  /** What a drive name leaves in the buffer once what follows has climbed: a climb takes its name away, and is kept
      only after `..`, and there only when the path was not rooted before. */
  function DriveFront(d: Drive, rooted: bool, ups: nat): Path {
    if d.rest == [ParentDir] && !rooted then Read(d) + Climb(ups)
    else if d.rest != [] && d.rest[0].Normal? && ups > 0 then [Prefix(d.prefix)]
    else Read(d)
  }

  function DriveForm(d: Drive, rooted: bool, r: Route): Path {
    DriveFront(d, rooted, r.ups) + Descent(r.names)
  }

  ghost predicate IsDrive(d: Drive) {
    |d.rest| <= 1 && (d.rest == [] || (!d.rest[0].Prefix? && !d.rest[0].RootDir?))
  }

  lemma ClimbAfterDrive(w: Platform, d: Drive, rooted: bool, ups: nat)
    requires IsDrive(d)
    ensures Same(Absorb(w, DriveFront(d, rooted, ups), rooted, ParentDir), DriveFront(d, rooted, ups + 1))
  {
    var front := DriveFront(d, rooted, ups);
    if d.rest == [ParentDir] && !rooted {
      assert Climb(ups + 1) == Climb(ups) + [ParentDir];
      assert front[|front| - 1] == ParentDir;
      assert Read(d) + Climb(ups + 1) == front + [ParentDir];
    } else if d.rest != [] && d.rest[0].Normal? && ups == 0 {
      assert front[..|front| - 1] == [Prefix(d.prefix)];
    } else {
      assert front[|front| - 1] == Prefix(d.prefix) || front[|front| - 1] == d.rest[0];
    }
  }

  lemma AbsorbAfterDrive(w: Platform, d: Drive, rooted: bool, r: Route, c: Component)
    requires IsDrive(d) && !c.Prefix? && !c.RootDir? && Plain(w, [c])
    ensures Same(Absorb(w, DriveForm(d, rooted, r), rooted, c), DriveForm(d, rooted, Extend(r, c)))
  {
    assert c == [c][0];
    if c.ParentDir? && r.names == [] {
      ClimbAfterDrive(w, d, rooted, r.ups);
      assert DriveFront(d, rooted, r.ups) + Descent([]) == DriveFront(d, rooted, r.ups);
      assert DriveFront(d, rooted, r.ups + 1) + Descent([]) == DriveFront(d, rooted, r.ups + 1);
    } else {
      AbsorbAfterFront(w, DriveFront(d, rooted, r.ups), rooted, r.names, c);
    }
  }

  /** After a front that stays, names come and go. */
  lemma AbsorbAfterFront(w: Platform, front: Path, rooted: bool, names: seq<Name>, c: Component)
    requires !c.Prefix? && !c.RootDir? && Plain(w, [c]) && (c.ParentDir? ==> names != [])
    ensures Same(Absorb(w, front + Descent(names), rooted, c), front + Descent(Extend(Route(0, names), c).names))
  {
    assert c == [c][0];
    match c {
      case Normal(name) =>
        assert Descent(names + [name]) == Descent(names) + [c];
        assert front + Descent(names) + [c] == front + Descent(names + [name]);
      case ParentDir =>
        assert (front + Descent(names))[..|front| + |names| - 1] == front + Descent(names[..|names| - 1]);
      case _ =>
    }
  }

  lemma {:induction false} AbsorbAllAfterDrive(w: Platform, d: Drive, rooted: bool, after: Path)
    requires IsDrive(d) && IsBody(after) && Plain(w, after)
    ensures Same(AbsorbAll(w, Read(d), rooted, after), DriveForm(d, rooted, RouteOf(after)))
  {
    if after == [] {
      assert Read(d) + Climb(0) + Descent([]) == Read(d);
      assert Read(d) + Descent([]) == Read(d);
    } else {
      var n := |after| - 1;
      AbsorbAllAfterDrive(w, d, rooted, after[..n]);
      AbsorbAfterDrive(w, d, rooted, RouteOf(after[..n]), after[n]);
    }
  }

  /** What was in the buffer before the last drive name makes no difference. */
  lemma {:induction false} AbsorbFromDrive(w: Platform, buffer: Path, rooted: bool, body: Path)
    requires LastDrive(w, body).Some?
    ensures var l := LastDrive(w, body).value;
            Same(AbsorbAll(w, buffer, rooted, body), AbsorbAll(w, Read(l.drive), rooted, l.after))
  {
    var n := |body| - 1;
    if body[n].Normal? && DriveOf(w, body[n].name).Some? {
      assert Absorb(w, AbsorbAll(w, buffer, rooted, body[..n]), rooted, body[n]) == Read(DriveOf(w, body[n].name).value);
    } else {
      AbsorbFromDrive(w, buffer, rooted, body[..n]);
      var after := LastDrive(w, body[..n]).value.after;
      assert (after + [body[n]])[..|after|] == after;
    }
  }

  /** What is left of an anchor and a body, in closed form. */
  function FormOf(w: Platform, anchor: Path, body: Path): Path {
    var r := RouteOf(body);
    match LastDrive(w, body)
    case Some(l) => DriveForm(l.drive, anchor != [], RouteOf(l.after))
    case None =>
      if anchor != [] then anchor + Descent(r.names)
      else if r == Route(0, []) then [CurDir]
      else Climb(r.ups) + Descent(r.names)
  }

  function NormalForm(w: Platform, path: Path): Path {
    FormOf(w, path[..Anchor(path)], path[Anchor(path)..])
  }

  lemma NormalizedIs(w: Platform, path: Path)
    requires IsPath(path)
    ensures Same(Normalized(w, path), NormalForm(w, path))
  {
    BufferIs(w, path[..Anchor(path)], Anchor(path) > 0, path[Anchor(path)..]);
  }

  /** The buffer in the end, by whether a name reads as a drive and whether there is an anchor. */
  lemma BufferIs(w: Platform, anchor: Path, rooted: bool, body: Path)
    requires IsBody(body) && rooted == (anchor != [])
    requires rooted ==> anchor[|anchor| - 1].Prefix? || anchor[|anchor| - 1].RootDir?
    ensures Same(AbsorbAll(w, anchor, rooted, body),
                 match LastDrive(w, body)
                 case Some(l) => DriveForm(l.drive, rooted, RouteOf(l.after))
                 case None => (if rooted then anchor else Climb(RouteOf(body).ups)) + Descent(RouteOf(body).names))
  {
    if LastDrive(w, body).Some? {
      DriveBuffer(w, anchor, rooted, body);
    } else {
      PlainHasNoDrive(w, body);
      if rooted {
        AbsorbAllRooted(w, anchor, body);
      } else {
        AbsorbAllRelative(w, body);
      }
    }
  }

  lemma DriveBuffer(w: Platform, anchor: Path, rooted: bool, body: Path)
    requires IsBody(body) && LastDrive(w, body).Some?
    ensures var l := LastDrive(w, body).value;
            Same(AbsorbAll(w, anchor, rooted, body), DriveForm(l.drive, rooted, RouteOf(l.after)))
  {
    var l := LastDrive(w, body).value;
    var front, name := LastDriveSplits(w, body);
    AfterIsBody(body, front + [Normal(name)], l.after);
    AbsorbFromDrive(w, anchor, rooted, body);
    AbsorbAllAfterDrive(w, l.drive, rooted, l.after);
  }

  lemma AfterIsBody(body: Path, front: Path, after: Path)
    requires IsBody(body) && body == front + after
    ensures IsBody(after)
  {
    forall i | 0 <= i < |after|
      ensures !after[i].Prefix? && !after[i].RootDir?
    {
      assert after[i] == body[|front| + i];
    }
  }

  // ----- Routes of what normalisation leaves

  /** One body after another: a climb first takes away names that came before. */
  function Joined(r: Route, s: Route): Route {
    if s.ups <= |r.names| then Route(r.ups, r.names[..|r.names| - s.ups] + s.names)
    else Route(r.ups + s.ups - |r.names|, s.names)
  }

  lemma {:induction false} RouteConcat(a: Path, b: Path)
    ensures RouteOf(a + b) == Joined(RouteOf(a), RouteOf(b))
  {
    var r := RouteOf(a);
    if b == [] {
      assert a + b == a;
      assert r.names[..|r.names|] + [] == r.names;
    } else {
      var m := |b| - 1;
      assert (a + b)[..|a + b| - 1] == a + b[..m];
      RouteConcat(a, b[..m]);
      JoinedExtends(r, RouteOf(b[..m]), b[m]);
    }
  }

  lemma JoinedExtends(r: Route, s: Route, c: Component)
    ensures Extend(Joined(r, s), c) == Joined(r, Extend(s, c))
  {
    var kept := if s.ups <= |r.names| then r.names[..|r.names| - s.ups] else [];
    match c {
      case Normal(name) =>
        assert kept + s.names + [name] == kept + (s.names + [name]);
      case ParentDir =>
        if s.names != [] {
          assert (kept + s.names)[..|kept + s.names| - 1] == kept + s.names[..|s.names| - 1];
        } else {
          assert kept + [] == kept;
          if s.ups < |r.names| {
            assert kept[..|kept| - 1] + [] == r.names[..|r.names| - s.ups - 1] + [];
          }
        }
      case _ =>
    }
  }

  lemma {:induction false} RouteOfClimb(ups: nat)
    ensures RouteOf(Climb(ups)) == Route(ups, [])
  {
    if ups > 0 {
      assert Climb(ups)[..ups - 1] == Climb(ups - 1);
      RouteOfClimb(ups - 1);
    }
  }

  lemma {:induction false} RouteOfDescent(ups: nat, names: seq<Name>)
    ensures RouteOf(Climb(ups) + Descent(names)) == Route(ups, names)
    decreases |names|
  {
    var body := Climb(ups) + Descent(names);
    if names == [] {
      assert body == Climb(ups);
      RouteOfClimb(ups);
    } else {
      var m := |names| - 1;
      assert body[..|body| - 1] == Climb(ups) + Descent(names[..m]);
      RouteOfDescent(ups, names[..m]);
      assert names[..m] + [names[m]] == names;
    }
  }

  /** The names of a route were in the body. */
  lemma {:induction false} RouteNames(body: Path)
    ensures |RouteOf(body).names| <= |body|
    ensures forall i | 0 <= i < |RouteOf(body).names| :: Normal(RouteOf(body).names[i]) in body
  {
    if body != [] {
      RouteNames(body[..|body| - 1]);
    }
  }

  lemma RouteIsPlain(w: Platform, body: Path)
    requires Plain(w, body)
    ensures Plain(w, Descent(RouteOf(body).names))
  {
    RouteNames(body);
    var names := RouteOf(body).names;
    forall i | 0 <= i < |names|
      ensures DriveOf(w, names[i]) == None
    {
      var k :| 0 <= k < |body| && body[k] == Normal(names[i]);
    }
  }

  /** The route that is left after a drive name. */
  function DriveRoute(d: Drive, rooted: bool, r: Route): Route {
    if d.rest == [ParentDir] then Route(1 + if rooted then 0 else r.ups, r.names)
    else if d.rest != [] && d.rest[0].Normal? && r.ups == 0 then Route(0, [d.rest[0].name] + r.names)
    else Route(0, r.names)
  }

  /** The body that is left after a drive name. */
  function DriveBody(d: Drive, rooted: bool, r: Route): Path {
    (if d.rest == [ParentDir] then Climb(1 + if rooted then 0 else r.ups)
     else if d.rest != [] && d.rest[0].Normal? && r.ups > 0 then []
     else d.rest) + Descent(r.names)
  }

  lemma DriveFormIs(d: Drive, rooted: bool, r: Route)
    requires IsDrive(d)
    ensures Same(DriveForm(d, rooted, r), [Prefix(d.prefix)] + DriveBody(d, rooted, r))
  {
    var names := Descent(r.names);
    if d.rest == [ParentDir] && !rooted {
      assert Read(d) + Climb(r.ups) + names == [Prefix(d.prefix)] + (Climb(1 + r.ups) + names);
    } else if d.rest == [ParentDir] {
      assert Read(d) + names == [Prefix(d.prefix)] + (Climb(1) + names);
    } else if d.rest != [] && d.rest[0].Normal? && r.ups > 0 {
      assert [Prefix(d.prefix)] + names == [Prefix(d.prefix)] + ([] + names);
    } else {
      assert Read(d) + names == [Prefix(d.prefix)] + (d.rest + names);
    }
  }

  lemma DescentRoute(names: seq<Name>)
    ensures RouteOf(Descent(names)) == Route(0, names)
  {
    assert Climb(0) + Descent(names) == Descent(names);
    RouteOfDescent(0, names);
  }

  lemma NamedRoute(name: Name, names: seq<Name>)
    ensures RouteOf([Normal(name)] + Descent(names)) == Route(0, [name] + names)
  {
    assert [Normal(name)] + Descent(names) == Descent([name] + names);
    DescentRoute([name] + names);
  }

  lemma DotRoute(names: seq<Name>)
    ensures RouteOf([CurDir] + Descent(names)) == Route(0, names)
  {
    DescentRoute(names);
    RouteConcat([CurDir], Descent(names));
    assert RouteOf([CurDir]) == Route(0, []) by { assert [CurDir][..0] == []; }
    assert [] + names == names;
  }

  lemma DriveBodyRoute(d: Drive, rooted: bool, r: Route)
    requires IsDrive(d)
    ensures RouteOf(DriveBody(d, rooted, r)) == DriveRoute(d, rooted, r)
  {
    if d.rest == [] || (d.rest[0].Normal? && r.ups > 0) {
      assert DriveBody(d, rooted, r) == Descent(r.names);
      DescentRoute(r.names);
    } else {
      match d.rest[0] {
        case ParentDir => RouteOfDescent(1 + if rooted then 0 else r.ups, r.names);
        case Normal(name) => assert d.rest == [Normal(name)]; NamedRoute(name, r.names);
        case CurDir => assert d.rest == [CurDir]; DotRoute(r.names);
        case _ =>
      }
    }
  }

  lemma DriveFormRoute(d: Drive, rooted: bool, r: Route)
    requires IsDrive(d)
    ensures var q := DriveForm(d, rooted, r);
            && q != [] && q[0] == Prefix(d.prefix) && Anchor(q) == 1 && IsPath(q)
            && RouteOf(q[1..]) == DriveRoute(d, rooted, r)
  {
    DriveFormIs(d, rooted, r);
    DriveBodyRoute(d, rooted, r);
    PrefixedRoute(DriveForm(d, rooted, r), d.prefix, DriveBody(d, rooted, r), DriveRoute(d, rooted, r));
  }

  lemma PrefixedRoute(q: Path, prefix: Name, body: Path, r: Route)
    requires Same(q, [Prefix(prefix)] + body) && IsBody(body) && RouteOf(body) == r
    ensures q != [] && q[0] == Prefix(prefix) && Anchor(q) == 1 && IsPath(q) && RouteOf(q[1..]) == r
  {
    PrefixedBody(prefix, body);
  }

  lemma PrefixedBody(prefix: Name, body: Path)
    requires IsBody(body)
    ensures var q := [Prefix(prefix)] + body;
            q[0] == Prefix(prefix) && Anchor(q) == 1 && IsPath(q) && q[1..] == body
  {
  }

  lemma AnchorOfRelative(q: Path, r: Route)
    requires q == if r == Route(0, []) then [CurDir] else Climb(r.ups) + Descent(r.names)
    ensures Anchor(q) == 0 && IsPath(q) && RouteOf(q[0..]) == r
  {
    assert q[0..] == q;
    if r == Route(0, []) {
      assert [CurDir][..0] == [];
    } else {
      RouteOfDescent(r.ups, r.names);
    }
  }

  lemma AnchorOfRooted(anchor: Path, names: seq<Name>)
    requires anchor != [] && Anchor(anchor) == |anchor|
    ensures var q := anchor + Descent(names);
            && Anchor(q) == |anchor| && q[..|anchor|] == anchor && IsPath(q)
            && RouteOf(q[|anchor|..]) == Route(0, names)
  {
    AnchorOfJoined(anchor, Descent(names));
    assert (anchor + Descent(names))[|anchor|..] == Climb(0) + Descent(names);
    RouteOfDescent(0, names);
  }

  lemma AnchorOfJoined(a: Path, b: Path)
    requires IsPath(a) && IsBody(b) && a != []
    ensures var n := Anchor(a);
            Anchor(a + b) == n && (a + b)[..n] == a[..n] && (a + b)[n..] == a[n..] + b && IsPath(a + b)
  {
  }

  /** What comes before the body of a normalised path, and the route of that body. */
  function NormalAnchor(w: Platform, path: Path): Path {
    match LastDrive(w, path[Anchor(path)..])
    case Some(l) => [Prefix(l.drive.prefix)]
    case None => path[..Anchor(path)]
  }

  function NormalRoute(w: Platform, path: Path): Route {
    var n := Anchor(path);
    match LastDrive(w, path[n..])
    case Some(l) => DriveRoute(l.drive, n > 0, RouteOf(l.after))
    case None => if n > 0 then Route(0, RouteOf(path[n..]).names) else RouteOf(path[n..])
  }

  lemma AnchorOfNormalized(w: Platform, path: Path)
    requires IsPath(path)
    ensures var q := Normalized(w, path);
            && Anchor(q) == |NormalAnchor(w, path)| && q[..Anchor(q)] == NormalAnchor(w, path) && IsPath(q)
            && RouteOf(q[Anchor(q)..]) == NormalRoute(w, path)
  {
    NormalizedIs(w, path);
    var n := Anchor(path);
    match LastDrive(w, path[n..]) {
      case Some(l) =>
        var front, name := LastDriveSplits(w, path[n..]);
        DriveFormRoute(l.drive, n > 0, RouteOf(l.after));
        assert DriveForm(l.drive, n > 0, RouteOf(l.after))[..1] == [Prefix(l.drive.prefix)];
      case None =>
        if n > 0 {
          AnchorOfRooted(path[..n], RouteOf(path[n..]).names);
        } else {
          AnchorOfRelative(NormalForm(w, path), RouteOf(path[n..]));
          assert NormalForm(w, path)[..0] == path[..0];
        }
    }
  }

  // ----- Normal forms

  /** `.` only by itself; `..` only as a leading run, and never below an anchor. */
  ghost predicate IsNormalForm(path: Path) {
    var n := Anchor(path);
    path == [CurDir] ||
    (path != [] && forall i | n <= i < |path| ::
       path[i].Normal? || (n == 0 && path[i].ParentDir? && forall j | 0 <= j < i :: path[j].ParentDir?))
  }

  /** The last drive name has nothing but a dot or two after its letter. */
  predicate StrayDot(w: Platform, path: Path) {
    match LastDrive(w, path[Anchor(path)..])
    case None => false
    case Some(l) => l.drive.rest != [] && !l.drive.rest[0].Normal?
  }

  /** What the last drive name leaves reads as a drive again, and nothing takes it away. */
  predicate ReadsAgain(w: Platform, path: Path) {
    match LastDrive(w, path[Anchor(path)..])
    case None => false
    case Some(l) =>
      l.drive.rest != [] && l.drive.rest[0].Normal? && DriveOf(w, l.drive.rest[0].name).Some? && RouteOf(l.after).ups == 0
  }

  /** The result is a normal form exactly when no drive name leaves a dot. */
  lemma NormalizedIsNormalForm(w: Platform, path: Path)
    requires IsPath(path)
    ensures IsNormalForm(Normalized(w, path)) <==> !StrayDot(w, path)
  {
    NormalizedIs(w, path);
    if LastDrive(w, path[Anchor(path)..]).Some? {
      DriveNormalForm(w, path);
    } else {
      PlainNormalForm(w, path);
    }
  }

  lemma DriveNormalForm(w: Platform, path: Path)
    requires IsPath(path) && LastDrive(w, path[Anchor(path)..]).Some?
    ensures IsNormalForm(NormalForm(w, path)) <==> !StrayDot(w, path)
  {
    var l := LastDrive(w, path[Anchor(path)..]).value;
    var front, name := LastDriveSplits(w, path[Anchor(path)..]);
    DriveFormNormal(l.drive, Anchor(path) > 0, RouteOf(l.after));
  }

  lemma DriveFormNormal(d: Drive, rooted: bool, r: Route)
    requires IsDrive(d)
    ensures IsNormalForm(DriveForm(d, rooted, r)) <==> d.rest == [] || d.rest[0].Normal?
  {
    var body := DriveBody(d, rooted, r);
    DriveFormIs(d, rooted, r);
    if d.rest == [] || d.rest[0].Normal? {
      NamesBelowPrefix(d.prefix, body);
    } else {
      assert body[0] == d.rest[0];
      DotBelowPrefix(d.prefix, body);
    }
  }

  lemma NamesBelowPrefix(prefix: Name, body: Path)
    requires forall i | 0 <= i < |body| :: body[i].Normal?
    ensures IsNormalForm([Prefix(prefix)] + body)
  {
    PrefixedBody(prefix, body);
  }

  lemma DotBelowPrefix(prefix: Name, body: Path)
    requires IsBody(body) && body != [] && !body[0].Normal?
    ensures !IsNormalForm([Prefix(prefix)] + body)
  {
    PrefixedBody(prefix, body);
    assert ([Prefix(prefix)] + body)[1] == body[0];
  }

  lemma PlainNormalForm(w: Platform, path: Path)
    requires IsPath(path) && LastDrive(w, path[Anchor(path)..]) == None
    ensures IsNormalForm(NormalForm(w, path))
  {
    var n, r := Anchor(path), RouteOf(path[Anchor(path)..]);
    if n > 0 {
      AnchorOfRooted(path[..n], r.names);
    } else {
      AnchorOfRelative(NormalForm(w, path), r);
    }
  }

  lemma NormalizedIsPlain(w: Platform, path: Path)
    requires IsPath(path)
    ensures Plain(w, Normalized(w, path)) <==> !ReadsAgain(w, path)
  {
    NormalizedIs(w, path);
    var n := Anchor(path);
    if LastDrive(w, path[n..]).Some? {
      var l := LastDrive(w, path[n..]).value;
      var front, name := LastDriveSplits(w, path[n..]);
      RouteIsPlain(w, l.after);
      DriveFormPlain(w, l.drive, n > 0, RouteOf(l.after));
    } else {
      PlainHasNoDrive(w, path[n..]);
      PlainFormPlain(w, path);
    }
  }

  lemma PlainFormPlain(w: Platform, path: Path)
    requires IsPath(path) && Plain(w, path[Anchor(path)..]) && LastDrive(w, path[Anchor(path)..]) == None
    ensures Plain(w, NormalForm(w, path))
  {
    var n, r := Anchor(path), RouteOf(path[Anchor(path)..]);
    RouteIsPlain(w, path[n..]);
    if n > 0 {
      AnchorIsPlain(w, path);
      PlainAfter(w, path[..n], Descent(r.names));
    } else if r != Route(0, []) {
      ClimbIsPlain(w, r.ups);
      PlainAfter(w, Climb(r.ups), Descent(r.names));
    }
  }

  lemma AnchorIsPlain(w: Platform, path: Path)
    ensures Plain(w, path[..Anchor(path)])
  {
  }

  lemma ClimbIsPlain(w: Platform, ups: nat)
    ensures Plain(w, Climb(ups))
  {
  }

  lemma DriveFormPlain(w: Platform, d: Drive, rooted: bool, r: Route)
    requires IsDrive(d) && Plain(w, Descent(r.names))
    ensures Plain(w, DriveForm(d, rooted, r)) <==>
            !(d.rest != [] && d.rest[0].Normal? && DriveOf(w, d.rest[0].name).Some? && r.ups == 0)
  {
    var front := DriveFront(d, rooted, r.ups);
    PlainAfter(w, front, Descent(r.names));
    if d.rest != [] && r.ups == 0 {
      assert front[1] == d.rest[0];
    }
  }

  lemma PlainAfter(w: Platform, a: Path, b: Path)
    ensures Plain(w, a + b) <==> Plain(w, a) && Plain(w, b)
  {
    if Plain(w, a + b) {
      forall i | 0 <= i < |a|
        ensures a[i].Normal? ==> DriveOf(w, a[i].name) == None
      {
        assert a[i] == (a + b)[i];
      }
      forall i | 0 <= i < |b|
        ensures b[i].Normal? ==> DriveOf(w, b[i].name) == None
      {
        assert b[i] == (a + b)[|a| + i];
      }
    }
  }

  /** The first k components stay. */
  ghost predicate Stays(w: Platform, path: Path, k: nat) {
    k <= |path| && Same(BufferAfter(w, path, k), path[..k])
  }

  lemma {:induction false} AbsorbNormalForm(w: Platform, path: Path, k: nat)
    requires IsPath(path) && IsNormalForm(path) && Plain(w, path) && path != [CurDir] && k <= |path|
    ensures Stays(w, path, k)
    decreases k
  {
    if Anchor(path) < k {
      AbsorbNormalForm(w, path, k - 1);
      OneMoreStays(w, path, k - 1);
    }
  }

  lemma OneMoreStays(w: Platform, path: Path, k: nat)
    requires IsPath(path) && IsNormalForm(path) && Plain(w, path) && path != [CurDir]
    requires Anchor(path) <= k < |path| && Stays(w, path, k)
    ensures Stays(w, path, k + 1)
  {
    BufferStep(w, path, k);
    NormalComponentStays(w, path, k);
  }

  lemma NormalComponentStays(w: Platform, path: Path, k: nat)
    requires IsNormalForm(path) && Plain(w, path) && path != [CurDir] && Anchor(path) <= k < |path|
    ensures Same(Absorb(w, path[..k], Anchor(path) > 0, path[k]), path[..k + 1])
  {
    assert path[..k] + [path[k]] == path[..k + 1];
  }

  lemma NormalFormStays(w: Platform, path: Path)
    requires IsPath(path) && IsNormalForm(path) && Plain(w, path)
    ensures Normalized(w, path) == path
  {
    if path == [CurDir] {
      assert path[0..][..0] == [] && path[..0] == [];
      assert AbsorbAll(w, [], false, [CurDir]) == [];
    } else {
      AbsorbNormalForm(w, path, |path|);
      BufferAfterAll(w, path);
      assert path[..|path|] == path;
    }
  }

  lemma DriveBodyDiffers(w: Platform, name: Name, d: Drive, front: Path, after: Path)
    requires DriveOf(w, name) == Some(d)
    ensures DriveBody(d, true, RouteOf(after)) != front + [Normal(name)] + after
  {
    var left, whole := DriveBody(d, true, RouteOf(after)), front + [Normal(name)] + after;
    RouteNames(after);
    if |left| == |whole| {
      assert left[0] == d.rest[0] != whole[0];
    }
  }

  /** What is left of a path with a drive name is never that path. */
  lemma DriveNamesNeverStay(w: Platform, path: Path)
    requires IsPath(path) && LastDrive(w, path[Anchor(path)..]).Some?
    ensures Normalized(w, path) != path
  {
    NormalizedIs(w, path);
    AnchorOfNormalized(w, path);
    var n := Anchor(path);
    var l := LastDrive(w, path[n..]).value;
    var front, name := LastDriveSplits(w, path[n..]);
    var q := DriveForm(l.drive, n > 0, RouteOf(l.after));
    DriveFormIs(l.drive, n > 0, RouteOf(l.after));
    DriveBodyDiffers(w, name, l.drive, front, l.after);
    if n == 1 {
      assert q[1..] == DriveBody(l.drive, true, RouteOf(l.after)) != path[1..];
    }
  }

  /** What normalisation leaves alone is exactly the normal forms without drive names. */
  lemma FixedPoints(w: Platform, path: Path)
    requires IsPath(path)
    ensures Normalized(w, path) == path <==> IsNormalForm(path) && Plain(w, path)
  {
    var n := Anchor(path);
    PlainHasNoDrive(w, path[n..]);
    PlainAfter(w, path[..n], path[n..]);
    assert path == path[..n] + path[n..];
    if LastDrive(w, path[n..]).Some? {
      DriveNamesNeverStay(w, path);
    } else if Normalized(w, path) == path {
      NormalizedIsNormalForm(w, path);
    } else if IsNormalForm(path) {
      NormalFormStays(w, path);
    }
  }

  /** Normalising again changes nothing exactly when the last drive name, if there is one, leaves neither a dot nor
      another drive name. */
  lemma Idempotent(w: Platform, path: Path)
    requires IsPath(path)
    ensures IsPath(Normalized(w, path))
    ensures Normalized(w, Normalized(w, path)) == Normalized(w, path) <==> !StrayDot(w, path) && !ReadsAgain(w, path)
  {
    AnchorOfNormalized(w, path);
    FixedPoints(w, Normalized(w, path));
    NormalizedIsNormalForm(w, path);
    NormalizedIsPlain(w, path);
  }

  // ----- Joined paths

  lemma {:induction false} LastDriveConcat(w: Platform, a: Path, b: Path)
    ensures LastDrive(w, a + b) ==
            match LastDrive(w, b)
            case Some(l) => Some(l)
            case None =>
              match LastDrive(w, a)
              case Some(l) => Some(LastRead(l.drive, l.after + b))
              case None => None
  {
    if b == [] {
      assert a + b == a;
      if LastDrive(w, a).Some? {
        assert LastDrive(w, a).value.after + b == LastDrive(w, a).value.after;
      }
    } else {
      var m := |b| - 1;
      assert (a + b)[..|a + b| - 1] == a + b[..m];
      LastDriveConcat(w, a, b[..m]);
      if LastDrive(w, b) == None && LastDrive(w, a).Some? {
        var after := LastDrive(w, a).value.after;
        assert after + b[..m] + [b[m]] == after + b;
      }
    }
  }

  /** When normalising the front first makes no difference: without a drive name in the front, always; a drive name in
      what follows takes the front away, unless it keeps climbs that only a front without an anchor keeps; a drive name
      in the front must be settled by its own normalisation, or what it leaves must be climbed out of. */
  predicate JoinKeeps(w: Platform, a: Path, b: Path) {
    match LastDrive(w, a[Anchor(a)..])
    case None => true
    case Some(l) =>
      match LastDrive(w, b)
      case Some(m) => Anchor(a) > 0 || m.drive.rest != [ParentDir] || RouteOf(m.after).ups == 0
      case None =>
        && !StrayDot(w, a)
        && (ReadsAgain(w, a) ==>
              var again := DriveOf(w, l.drive.rest[0].name).value;
              && again.prefix == l.drive.prefix && (again.rest == [] || again.rest[0].Normal?)
              && Joined(RouteOf(l.after), RouteOf(b)).ups > 0)
  }

  /** A drive name in what follows takes the front away. */
  lemma DriveFollows(w: Platform, anchor: Path, body: Path, other: Path, instead: Path, b: Path)
    requires LastDrive(w, b).Some? && IsBody(b)
    ensures var m := LastDrive(w, b).value;
            Same(FormOf(w, anchor, body + b), FormOf(w, other, instead + b)) <==>
            (anchor == []) == (other == []) || m.drive.rest != [ParentDir] || RouteOf(m.after).ups == 0
  {
    LastDriveConcat(w, body, b);
    LastDriveConcat(w, instead, b);
    var m := LastDrive(w, b).value;
    RootedDriveForm(m.drive, RouteOf(m.after));
  }

  lemma RootedDriveForm(d: Drive, r: Route)
    ensures Same(DriveForm(d, true, r), DriveForm(d, false, r)) <==> d.rest != [ParentDir] || r.ups == 0
  {
    if d.rest == [ParentDir] {
      assert |DriveForm(d, true, r)| == |DriveForm(d, false, r)| - r.ups;
      assert Read(d) + Climb(0) == Read(d);
    }
  }

  lemma PlainJoined(w: Platform, anchor: Path, body: Path, instead: Path, b: Path)
    requires LastDrive(w, body) == None && LastDrive(w, instead) == None && LastDrive(w, b) == None
    requires RouteOf(instead).names == RouteOf(body).names && (anchor == [] ==> RouteOf(instead) == RouteOf(body))
    ensures Same(FormOf(w, anchor, body + b), FormOf(w, anchor, instead + b))
  {
    LastDriveConcat(w, body, b);
    LastDriveConcat(w, instead, b);
    RouteConcat(body, b);
    RouteConcat(instead, b);
    FormFollowsRoute(w, anchor, body + b, instead + b);
  }

  lemma FormFollowsRoute(w: Platform, anchor: Path, body: Path, instead: Path)
    requires LastDrive(w, body) == None && LastDrive(w, instead) == None
    requires RouteOf(instead).names == RouteOf(body).names && (anchor == [] ==> RouteOf(instead) == RouteOf(body))
    ensures Same(FormOf(w, anchor, body), FormOf(w, anchor, instead))
  {
  }

  lemma SameOnBothSides<T>(a: T, b: T, c: T, d: T)
    requires Same(a, b) && Same(c, d)
    ensures Same(a, c) <==> Same(b, d)
  {
  }

  lemma DriveJoined(w: Platform, anchor: Path, body: Path, b: Path)
    requires LastDrive(w, body).Some? && LastDrive(w, b) == None
    ensures var l := LastDrive(w, body).value;
            Same(FormOf(w, anchor, body + b), DriveForm(l.drive, anchor != [], Joined(RouteOf(l.after), RouteOf(b))))
  {
    LastDriveConcat(w, body, b);
    RouteConcat(LastDrive(w, body).value.after, b);
  }

  /** A front with a drive name that its normalisation settles. */
  lemma SettledJoined(w: Platform, anchor: Path, body: Path, instead: Path, b: Path)
    requires LastDrive(w, body).Some? && LastDrive(w, instead) == None && LastDrive(w, b) == None
    requires var l := LastDrive(w, body).value;
             IsDrive(l.drive) && RouteOf(instead) == DriveRoute(l.drive, anchor != [], RouteOf(l.after))
    ensures var l := LastDrive(w, body).value;
            Same(FormOf(w, anchor, body + b), FormOf(w, [Prefix(l.drive.prefix)], instead + b)) <==>
            l.drive.rest == [] || l.drive.rest[0].Normal?
  {
    var l := LastDrive(w, body).value;
    DriveJoined(w, anchor, body, b);
    LastDriveConcat(w, instead, b);
    RouteConcat(instead, b);
    SettledForm(l.drive, anchor != [], RouteOf(l.after), RouteOf(b));
  }

  lemma SettledForm(d: Drive, rooted: bool, r: Route, s: Route)
    requires IsDrive(d)
    ensures Same(DriveForm(d, rooted, Joined(r, s)),
                 [Prefix(d.prefix)] + Descent(Joined(DriveRoute(d, rooted, r), s).names))
            <==> d.rest == [] || d.rest[0].Normal?
  {
    DriveFormIs(d, rooted, Joined(r, s));
    if d.rest == [] || d.rest[0].Normal? {
      SettledBody(d, rooted, r, s);
    } else {
      DotStays(d, rooted, Joined(r, s));
      DotIsNoName(d, DriveBody(d, rooted, Joined(r, s)), Joined(DriveRoute(d, rooted, r), s).names);
    }
  }

  lemma SettledBody(d: Drive, rooted: bool, r: Route, s: Route)
    requires IsDrive(d) && (d.rest == [] || d.rest[0].Normal?)
    ensures Same(DriveBody(d, rooted, Joined(r, s)), Descent(Joined(DriveRoute(d, rooted, r), s).names))
  {
    if d.rest == [] {
      EmptyBefore(Descent(Joined(r, s).names));
    } else {
      assert d.rest == [Normal(d.rest[0].name)];
      SettledName(d, d.rest[0].name, r, s);
      NameBefore(d.rest[0].name, Joined(r, s).names);
      EmptyBefore(Descent(Joined(r, s).names));
    }
  }

  lemma EmptyBefore(body: Path)
    ensures Same([] + body, body)
  {
    assert [] + body == body;
  }

  lemma NameBefore(name: Name, names: seq<Name>)
    ensures Same([Normal(name)] + Descent(names), Descent([name] + names))
  {
    assert [Normal(name)] + Descent(names) == Descent([name] + names);
  }

  lemma DotStays(d: Drive, rooted: bool, r: Route)
    requires IsDrive(d) && d.rest != [] && !d.rest[0].Normal?
    ensures DriveBody(d, rooted, r) != [] && !DriveBody(d, rooted, r)[0].Normal?
  {
  }

  lemma DotIsNoName(d: Drive, left: Path, names: seq<Name>)
    requires left != [] && !left[0].Normal?
    ensures !Same([Prefix(d.prefix)] + left, [Prefix(d.prefix)] + Descent(names))
  {
    var a, b := [Prefix(d.prefix)] + left, [Prefix(d.prefix)] + Descent(names);
    assert a[1] == left[0];
    assert |b| > 1 ==> b[1] == Normal(names[0]);
  }

  lemma SettledName(d: Drive, name: Name, r: Route, s: Route)
    ensures var left := Joined(r, s);
            Joined(if r.ups == 0 then Route(0, [name] + r.names) else Route(0, r.names), s).names
            == if left.ups == 0 then [name] + left.names else left.names
  {
    if r.ups == 0 && s.ups <= |r.names| {
      var k := |r.names| - s.ups;
      assert ([name] + r.names)[..1 + k] + s.names == [name] + (r.names[..k] + s.names);
    } else if r.ups == 0 && s.ups == |r.names| + 1 {
      assert ([name] + r.names)[..0] + s.names == s.names;
    }
  }

  /** A front whose last drive name leaves another. */
  lemma AgainJoined(w: Platform, anchor: Path, body: Path, instead: Path, b: Path, d: Drive, after: Path, again: Drive)
    requires LastDrive(w, body) == Some(LastRead(d, after)) && LastDrive(w, b) == None && RouteOf(after).ups == 0
    requires LastDrive(w, instead) == Some(LastRead(again, Descent(RouteOf(after).names)))
    ensures var r := Joined(RouteOf(after), RouteOf(b));
            && Same(FormOf(w, anchor, body + b), DriveForm(d, anchor != [], r))
            && Same(FormOf(w, [Prefix(d.prefix)], instead + b), DriveForm(again, true, r))
  {
    DriveJoined(w, anchor, body, b);
    DriveJoined(w, [Prefix(d.prefix)], instead, b);
    DescentRoute(RouteOf(after).names);
  }

  lemma AgainForm(d: Drive, name: Name, again: Drive, rooted: bool, r: Route)
    requires IsDrive(d) && IsDrive(again) && d.rest == [Normal(name)]
    requires again.rest != [] && again.rest[0].Normal? ==> |again.rest[0].name| < |name|
    ensures Same(DriveForm(d, rooted, r), DriveForm(again, true, r)) <==>
            again.prefix == d.prefix && (again.rest == [] || again.rest[0].Normal?) && r.ups > 0
  {
    var left, right := DriveForm(d, rooted, r), DriveForm(again, true, r);
    assert left == right || left != right;
    assert left[0] == Prefix(d.prefix) && right[0] == Prefix(again.prefix);
    if r.ups == 0 {
      assert left[1] == Normal(name);
      assert again.rest != [] ==> right[1] == again.rest[0];
    }
  }

  /** Normalising the front of a joined path first makes no difference exactly then. */
  lemma NormalizeJoined(w: Platform, a: Path, b: Path)
    requires IsPath(a) && IsBody(b) && a != []
    ensures Normalized(w, a + b) == Normalized(w, Normalized(w, a) + b) <==> JoinKeeps(w, a, b)
  {
    var q := Normalized(w, a);
    AnchorOfNormalized(w, a);
    NormalizedHasNoDrive(w, a);
    FormsJoin(w, a, b, q[Anchor(q)..]);
    JoinedForms(w, a, b);
    JoinedForms(w, q, b);
    SameOnBothSides(Normalized(w, a + b), FormOf(w, a[..Anchor(a)], a[Anchor(a)..] + b),
                    Normalized(w, q + b), FormOf(w, NormalAnchor(w, a), q[Anchor(q)..] + b));
  }

  lemma BodyIsPlain(w: Platform, path: Path, n: nat)
    requires n <= |path|
    ensures Plain(w, path) ==> Plain(w, path[n..])
  {
  }

  lemma NormalizedHasNoDrive(w: Platform, a: Path)
    requires IsPath(a)
    ensures var q := Normalized(w, a);
            !ReadsAgain(w, a) ==> LastDrive(w, q[Anchor(q)..]) == None
  {
    var q := Normalized(w, a);
    NormalizedIsPlain(w, a);
    PlainHasNoDrive(w, q[Anchor(q)..]);
    BodyIsPlain(w, q, Anchor(q));
  }

  lemma FormsJoin(w: Platform, a: Path, b: Path, instead: Path)
    requires IsPath(a) && IsBody(b) && a != [] && RouteOf(instead) == NormalRoute(w, a)
    requires Normalized(w, a)[Anchor(Normalized(w, a))..] == instead
    requires !ReadsAgain(w, a) ==> LastDrive(w, instead) == None
    ensures Same(FormOf(w, a[..Anchor(a)], a[Anchor(a)..] + b), FormOf(w, NormalAnchor(w, a), instead + b)) <==>
            JoinKeeps(w, a, b)
  {
    var n := Anchor(a);
    if LastDrive(w, b).Some? {
      DriveFollows(w, a[..n], a[n..], NormalAnchor(w, a), instead, b);
    } else if LastDrive(w, a[n..]) == None {
      PlainJoined(w, a[..n], a[n..], instead, b);
    } else if ReadsAgain(w, a) {
      AgainFormsJoin(w, a, b, instead);
    } else {
      var front, name := LastDriveSplits(w, a[n..]);
      SettledJoined(w, a[..n], a[n..], instead, b);
    }
  }

  lemma AgainFormsJoin(w: Platform, a: Path, b: Path, instead: Path)
    requires IsPath(a) && ReadsAgain(w, a) && LastDrive(w, b) == None
    requires Normalized(w, a)[Anchor(Normalized(w, a))..] == instead
    ensures Same(FormOf(w, a[..Anchor(a)], a[Anchor(a)..] + b), FormOf(w, NormalAnchor(w, a), instead + b)) <==>
            JoinKeeps(w, a, b)
  {
    var n := Anchor(a);
    var name, again := AgainLeft(w, a);
    var l := LastDrive(w, a[n..]).value;
    var r := Joined(RouteOf(l.after), RouteOf(b));
    AgainJoined(w, a[..n], a[n..], instead, b, l.drive, l.after, again);
    AgainForm(l.drive, name, again, n > 0, r);
    SameOnBothSides(FormOf(w, a[..n], a[n..] + b), DriveForm(l.drive, n > 0, r),
                    FormOf(w, NormalAnchor(w, a), instead + b), DriveForm(again, true, r));
    AgainKeeps(w, a, b, l, again);
  }

  lemma AgainKeeps(w: Platform, a: Path, b: Path, l: LastRead, again: Drive)
    requires ReadsAgain(w, a) && LastDrive(w, b) == None && LastDrive(w, a[Anchor(a)..]) == Some(l)
    requires DriveOf(w, l.drive.rest[0].name) == Some(again)
    ensures JoinKeeps(w, a, b) <==>
            again.prefix == l.drive.prefix && (again.rest == [] || again.rest[0].Normal?)
            && Joined(RouteOf(l.after), RouteOf(b)).ups > 0
  {
  }

  lemma JoinedForms(w: Platform, a: Path, b: Path)
    requires IsPath(a) && IsBody(b) && a != []
    ensures Same(Normalized(w, a + b), FormOf(w, a[..Anchor(a)], a[Anchor(a)..] + b))
  {
    AnchorOfJoined(a, b);
    NormalizedIs(w, a + b);
  }

  lemma AgainLeft(w: Platform, a: Path) returns (name: Name, again: Drive)
    requires IsPath(a) && ReadsAgain(w, a)
    ensures var l, q := LastDrive(w, a[Anchor(a)..]).value, Normalized(w, a);
            && l.drive.rest == [Normal(name)] && IsDrive(l.drive) && DriveOf(w, name) == Some(again)
            && LastDrive(w, q[Anchor(q)..]) == Some(LastRead(again, Descent(RouteOf(l.after).names)))
  {
    var l := LastDrive(w, a[Anchor(a)..]).value;
    var front, drive := LastDriveSplits(w, a[Anchor(a)..]);
    name := l.drive.rest[0].name;
    again := DriveOf(w, name).value;
    assert l.drive.rest == [Normal(name)];
    AgainBodyIs(w, a, name);
    RouteIsPlain(w, l.after);
    AgainBody(w, name, again, RouteOf(l.after).names);
  }

  /** The name that is left comes first below its drive. */
  lemma AgainBodyIs(w: Platform, a: Path, name: Name)
    requires IsPath(a) && ReadsAgain(w, a) && LastDrive(w, a[Anchor(a)..]).value.drive.rest == [Normal(name)]
    ensures var l, q := LastDrive(w, a[Anchor(a)..]).value, Normalized(w, a);
            Same(q[Anchor(q)..], [Normal(name)] + Descent(RouteOf(l.after).names))
  {
    var l := LastDrive(w, a[Anchor(a)..]).value;
    NormalizedIs(w, a);
    DriveFormIs(l.drive, Anchor(a) > 0, RouteOf(l.after));
    PrefixedBody(l.drive.prefix, DriveBody(l.drive, Anchor(a) > 0, RouteOf(l.after)));
  }

  lemma AgainBody(w: Platform, name: Name, again: Drive, names: seq<Name>)
    requires DriveOf(w, name) == Some(again) && Plain(w, Descent(names))
    ensures LastDrive(w, [Normal(name)] + Descent(names)) == Some(LastRead(again, Descent(names)))
  {
    PlainHasNoDrive(w, Descent(names));
    LastDriveConcat(w, [Normal(name)], Descent(names));
    assert [] + Descent(names) == Descent(names);
  }

  // ----- Two paths that normalisation leads astray

  /** `C:..\x` becomes `C:x`. */
  lemma DriveClimbIsDropped()
    ensures var path := [Prefix("C:"), ParentDir, Normal("x")];
            IsPath(path) && Normalized(Windows, path) == [Prefix("C:"), Normal("x")]
  {
    var path := [Prefix("C:"), ParentDir, Normal("x")];
    var body := path[1..];
    assert body == [ParentDir, Normal("x")] && body[..1] == [ParentDir] && [ParentDir][..0] == [];
    assert AbsorbAll(Windows, path[..1], true, []) == [Prefix("C:")];
    assert AbsorbAll(Windows, path[..1], true, [ParentDir]) == [Prefix("C:")];
  }

  /** `x\C:foo` becomes `C:foo`. */
  lemma DriveNameReplaces()
    ensures var path := [Normal("x"), Normal("C:foo")];
            IsPath(path) && Normalized(Windows, path) == [Prefix("C:"), Normal("foo")]
  {
    assert "C:foo"[2..] == "foo";
    DriveNameTakesAll("C:foo", Drive("C:", [Normal("foo")]));
  }

  /** `x\C:..` becomes `C:..`, which is no normal form and becomes `C:`. */
  lemma DriveNameLeavesDots()
    ensures var path := [Normal("x"), Normal("C:..")];
            && IsPath(path) && Normalized(Windows, path) == [Prefix("C:"), ParentDir]
            && !IsNormalForm(Normalized(Windows, path))
            && Normalized(Windows, Normalized(Windows, path)) == [Prefix("C:")]
  {
    assert "C:.."[2..] == "..";
    DriveNameTakesAll("C:..", Drive("C:", [ParentDir]));
    DotsAreDropped([Prefix("C:"), ParentDir]);
  }

  lemma DotsAreDropped(left: Path)
    requires left == [Prefix("C:"), ParentDir]
    ensures !IsNormalForm(left) && Normalized(Windows, left) == [Prefix("C:")]
  {
    assert left[1] == ParentDir;
    assert left[1..] == [ParentDir] && [ParentDir][..0] == [] && left[..1] == [Prefix("C:")];
    assert AbsorbAll(Windows, left[..1], true, []) == [Prefix("C:")];
  }

  lemma DriveNameTakesAll(name: Name, d: Drive)
    requires DriveOf(Windows, name) == Some(d)
    ensures Normalized(Windows, [Normal("x"), Normal(name)]) == Read(d)
  {
    var path := [Normal("x"), Normal(name)];
    assert path[0..] == path && path[..1] == [Normal("x")];
    assert Absorb(Windows, AbsorbAll(Windows, path[..0], false, path[..1]), false, Normal(name)) == Read(d);
  }
}
