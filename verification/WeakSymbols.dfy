/**
 * Isolation of weak static-string symbols: a name that several objects define is renamed in every
 * object but the first, and a second scan panics when a duplicate is left.
 */
module WeakSymbols {
  import opened Basics

  type Name = string

  const MARKER: string := "__prodex_obj_"

  // ----- New names

  function Digit(d: nat): char
    requires d < 10
  {
    ['0', '1', '2', '3', '4', '5', '6', '7', '8', '9'][d]
  }

  function Decimal(n: nat): (text: string)
    ensures '_' !in text
  {
    if n < 10 then [Digit(n)] else Decimal(n / 10) + [Digit(n % 10)]
  }

  function DigitValue(c: char): nat {
    if '0' <= c <= '9' then c as nat - '0' as nat else 0
  }

  function DecimalValue(text: string): nat {
    if text == [] then 0 else DecimalValue(text[..|text| - 1]) * 10 + DigitValue(text[|text| - 1])
  }

  lemma {:induction false} DecimalReadsBack(n: nat)
    ensures DecimalValue(Decimal(n)) == n
  {
    if n >= 10 {
      assert Decimal(n)[..|Decimal(n)| - 1] == Decimal(n / 10);
      DecimalReadsBack(n / 10);
    }
  }

  function Target(unit: nat, name: Name): Name {
    name + MARKER + Decimal(unit)
  }

  /** The text after the last underscore. */
  lemma TailAfterUnderscore(a: string, x: string, b: string, y: string)
    requires a != [] && b != [] && a[|a| - 1] == b[|b| - 1] == '_'
    requires '_' !in x && '_' !in y
    requires a + x == b + y
    ensures a == b && x == y
  {
    if |a| < |b| {
      ShorterFront(a, x, b, y);
    } else if |b| < |a| {
      ShorterFront(b, y, a, x);
    } else {
      assert a == (a + x)[..|a|] && x == (a + x)[|a|..];
    }
  }

  lemma ShorterFront(a: string, x: string, b: string, y: string)
    requires |a| < |b| && a + x == b + y
    ensures b[|b| - 1] in x
  {
    assert (a + x)[|b| - 1] == (b + y)[|b| - 1];
  }

  /** A new name tells which object it belongs to and which name it replaces. */
  lemma TargetIsInjective(i: nat, n: Name, j: nat, m: Name)
    requires Target(i, n) == Target(j, m)
    ensures i == j && n == m
  {
    var a, b := n + MARKER, m + MARKER;
    TailAfterUnderscore(a, Decimal(i), b, Decimal(j));
    DecimalReadsBack(i);
    DecimalReadsBack(j);
    assert n == a[..|a| - |MARKER|] && m == b[..|b| - |MARKER|];
  }

  /** A new name is the old one, the marker and the number of the object in decimal, without leading zeros. */
  lemma TargetSpells(unit: nat, name: Name) returns (digits: string)
    ensures Target(unit, name) == name + "__prodex_obj_" + digits
    ensures DecimalValue(digits) == unit && digits != [] && (digits[0] == '0' ==> digits == "0")
    ensures forall k | 0 <= k < |digits| :: '0' <= digits[k] <= '9'
  {
    digits := Decimal(unit);
    DecimalReadsBack(unit);
    DecimalIsPlain(unit);
  }

  lemma {:induction false} DecimalIsPlain(n: nat)
    ensures Decimal(n) != [] && (Decimal(n)[0] == '0' <==> n == 0)
    ensures forall k | 0 <= k < |Decimal(n)| :: '0' <= Decimal(n)[k] <= '9'
  {
    if n >= 10 {
      DecimalIsPlain(n / 10);
    }
  }

  // ----- Scanning

  /** A weak static-string symbol and the object that defines it. */
  datatype Symbol = Symbol(unit: nat, name: Name)

  function Tagged(unit: nat, names: seq<Name>): (symbols: seq<Symbol>)
    ensures |symbols| == |names| && forall k | 0 <= k < |names| :: symbols[k] == Symbol(unit, names[k])
  {
    seq(|names|, k requires 0 <= k < |names| => Symbol(unit, names[k]))
  }

  /** The symbols of the first n objects in scan order. */
  function Scan(objects: seq<seq<Name>>, n: nat): seq<Symbol>
    requires n <= |objects|
  {
    if n == 0 then [] else Scan(objects, n - 1) + Tagged(n - 1, objects[n - 1])
  }

  function Symbols(objects: seq<seq<Name>>): seq<Symbol> {
    Scan(objects, |objects|)
  }

  /** The objects a name occurs in, once for each occurrence. */
  function Occurrences(symbols: seq<Symbol>, name: Name): seq<nat> {
    if symbols == [] then [] else
      var last := symbols[|symbols| - 1];
      Occurrences(symbols[..|symbols| - 1], name) + if last.name == name then [last.unit] else []
  }

  ghost predicate IsOccurrences(occurrences: map<Name, seq<nat>>, symbols: seq<Symbol>) {
    forall name :: if name in occurrences then occurrences[name] == Occurrences(symbols, name) != []
                   else Occurrences(symbols, name) == []
  }

  /** The entry for the name of one more symbol grows by its object. */
  lemma OccurrencesGrow(occurrences: map<Name, seq<nat>>, symbols: seq<Symbol>, s: Symbol)
    requires IsOccurrences(occurrences, symbols)
    ensures var indices := if s.name in occurrences then occurrences[s.name] else [];
            IsOccurrences(occurrences[s.name := indices + [s.unit]], symbols + [s])
  {
    assert (symbols + [s])[..|symbols|] == symbols;
  }

  lemma ScanNext(objects: seq<seq<Name>>, index: nat, k: nat)
    requires index < |objects| && k <= |objects[index]|
    ensures var names := objects[index];
            && (k == 0 ==> Scan(objects, index) + Tagged(index, names[..k]) == Scan(objects, index))
            && (k < |names| ==> Scan(objects, index) + Tagged(index, names[..k]) + [Symbol(index, names[k])]
                                == Scan(objects, index) + Tagged(index, names[..k + 1]))
            && (k == |names| ==> Scan(objects, index) + Tagged(index, names[..k]) == Scan(objects, index + 1))
  {
    var names := objects[index];
    if k < |names| {
      assert Tagged(index, names[..k]) + [Symbol(index, names[k])] == Tagged(index, names[..k + 1]);
      Associate(Scan(objects, index), Tagged(index, names[..k]), [Symbol(index, names[k])]);
    } else {
      assert names[..k] == names;
    }
  }

  method DuplicateWeakStaticStrings(objects: seq<seq<Name>>) returns (duplicates: map<Name, seq<nat>>)
    ensures IsDuplicates(duplicates, Symbols(objects))
  {
    var occurrences: map<Name, seq<nat>> := map[];
    ghost var scanned: seq<Symbol> := [];
    for index := 0 to |objects|
      invariant scanned == Scan(objects, index) && IsOccurrences(occurrences, scanned)
    {
      var names := objects[index];
      ScanNext(objects, index, 0);
      for k := 0 to |names|
        invariant scanned == Scan(objects, index) + Tagged(index, names[..k]) && IsOccurrences(occurrences, scanned)
      {
        var name := names[k];
        ScanNext(objects, index, k);
        OccurrencesGrow(occurrences, scanned, Symbol(index, name));
        var indices := if name in occurrences then occurrences[name] else [];
        occurrences := occurrences[name := indices + [index]];
        scanned := scanned + [Symbol(index, name)];
      }
      ScanNext(objects, index, |names|);
    }
    duplicates := map name | name in occurrences && |occurrences[name]| > 1 :: occurrences[name];
  }

  /** The names that occur more than once, with where they occur. */
  ghost predicate IsDuplicates(duplicates: map<Name, seq<nat>>, symbols: seq<Symbol>) {
    forall name :: if |Occurrences(symbols, name)| > 1
                   then name in duplicates && duplicates[name] == Occurrences(symbols, name)
                   else name !in duplicates
  }

  // ----- Renaming

  /** The symbol at b is not the first with its name. */
  ghost predicate Repeats(symbols: seq<Symbol>, b: nat) {
    b < |symbols| && exists a :: 0 <= a < b && symbols[a].name == symbols[b].name
  }

  predicate Moved(symbols: seq<Symbol>, unit: nat, name: Name) {
    var indices := Occurrences(symbols, name);
    |indices| > 1 && unit in indices[1..]
  }

  /** The name that object i has for `name` after the rewrite. */
  function NewName(symbols: seq<Symbol>, i: nat, name: Name): Name {
    if Moved(symbols, i, name) then Target(i, name) else name
  }

  lemma {:induction false} OccurrencesCount(symbols: seq<Symbol>, name: Name)
    ensures Occurrences(symbols, name) != [] <==> exists a :: 0 <= a < |symbols| && symbols[a].name == name
  {
    if symbols != [] {
      var n := |symbols| - 1;
      OccurrencesCount(symbols[..n], name);
      if a :| 0 <= a < n && symbols[..n][a].name == name {
        assert symbols[a].name == name;
      }
      if a :| 0 <= a < |symbols| && symbols[a].name == name {
        assert a < n ==> symbols[..n][a].name == name;
      }
    }
  }

  /** An object is told to rename exactly the names it holds in a repeating symbol. */
  lemma {:induction false} MovedMeansRepeats(symbols: seq<Symbol>, i: nat, name: Name)
    ensures Moved(symbols, i, name) <==> exists b: nat :: Repeats(symbols, b) && symbols[b] == Symbol(i, name)
  {
    if symbols != [] {
      var n := |symbols| - 1;
      var front := symbols[..n];
      MovedMeansRepeats(front, i, name);
      OccurrencesCount(front, name);
      RepeatsInFront(symbols);
      if b: nat :| Repeats(front, b) && front[b] == Symbol(i, name) {
        assert Repeats(symbols, b) && symbols[b] == Symbol(i, name);
      }
      if b: nat :| Repeats(symbols, b) && symbols[b] == Symbol(i, name) {
        if b < n {
          assert Repeats(front, b) && front[b] == Symbol(i, name);
        }
      }
      MovedStep(symbols, i, name);
    }
  }

  lemma RepeatsInFront(symbols: seq<Symbol>)
    requires symbols != []
    ensures forall b | 0 <= b < |symbols| - 1 :: Repeats(symbols, b) <==> Repeats(symbols[..|symbols| - 1], b)
  {
    var front := symbols[..|symbols| - 1];
    forall b | 0 <= b < |symbols| - 1
      ensures Repeats(symbols, b) <==> Repeats(front, b)
    {
      assert forall a | 0 <= a <= b :: front[a] == symbols[a];
    }
  }

  lemma MovedStep(symbols: seq<Symbol>, i: nat, name: Name)
    requires symbols != []
    ensures var front, last := symbols[..|symbols| - 1], symbols[|symbols| - 1];
            Moved(symbols, i, name) <==>
            Moved(front, i, name) || (last == Symbol(i, name) && Occurrences(front, name) != [])
  {
    var front, last := symbols[..|symbols| - 1], symbols[|symbols| - 1];
    var indices, all := Occurrences(front, name), Occurrences(symbols, name);
    if last.name == name {
      assert all == indices + [last.unit];
      if indices != [] {
        assert all[1..] == indices[1..] + [last.unit];
      }
    } else {
      assert all == indices;
    }
  }

  // ----- When isolation works

  /** Every name is defined once. */
  ghost predicate Isolated(symbols: seq<Symbol>) {
    forall a, b | 0 <= a < b < |symbols| :: symbols[a].name != symbols[b].name
  }

  ghost predicate DistinctInObjects(symbols: seq<Symbol>) {
    forall a, b | 0 <= a < b < |symbols| && symbols[a].unit == symbols[b].unit :: symbols[a].name != symbols[b].name
  }

  /** No name that is about to be made up is in use already. */
  ghost predicate TargetsAreNew(symbols: seq<Symbol>) {
    forall a, b | 0 <= a < |symbols| && 0 <= b < |symbols| && Repeats(symbols, a) ::
      symbols[b].name != Target(symbols[a].unit, symbols[a].name)
  }

  ghost predicate IsRewrite(after: seq<Symbol>, symbols: seq<Symbol>) {
    && |after| == |symbols|
    && forall k | 0 <= k < |symbols| ::
         after[k] == Symbol(symbols[k].unit, NewName(symbols, symbols[k].unit, symbols[k].name))
  }

  lemma MovedIfRepeats(symbols: seq<Symbol>, b: nat)
    requires Repeats(symbols, b)
    ensures Moved(symbols, symbols[b].unit, symbols[b].name)
  {
    MovedMeansRepeats(symbols, symbols[b].unit, symbols[b].name);
  }

  /** Two symbols whose names differ after all, whichever of them are renamed. */
  lemma NamesComeApart(symbols: seq<Symbol>, a: nat, b: nat)
    requires DistinctInObjects(symbols) && TargetsAreNew(symbols) && a < b < |symbols|
    ensures NewName(symbols, symbols[a].unit, symbols[a].name) != NewName(symbols, symbols[b].unit, symbols[b].name)
  {
    var s, t := symbols[a], symbols[b];
    if Moved(symbols, s.unit, s.name) && Moved(symbols, t.unit, t.name) {
      if Target(s.unit, s.name) == Target(t.unit, t.name) {
        TargetIsInjective(s.unit, s.name, t.unit, t.name);
      }
    } else if Moved(symbols, s.unit, s.name) {
      TargetIsNobodys(symbols, s, b);
    } else if Moved(symbols, t.unit, t.name) {
      TargetIsNobodys(symbols, t, a);
    } else if s.name == t.name {
      assert Repeats(symbols, b);
      MovedIfRepeats(symbols, b);
    }
  }

  lemma TargetIsNobodys(symbols: seq<Symbol>, s: Symbol, b: nat)
    requires TargetsAreNew(symbols) && Moved(symbols, s.unit, s.name) && b < |symbols|
    ensures symbols[b].name != Target(s.unit, s.name)
  {
    MovedMeansRepeats(symbols, s.unit, s.name);
  }

  lemma IsolationWorks(symbols: seq<Symbol>, after: seq<Symbol>)
    requires IsRewrite(after, symbols) && DistinctInObjects(symbols) && TargetsAreNew(symbols)
    ensures Isolated(after)
  {
    forall a, b | 0 <= a < b < |after|
      ensures after[a].name != after[b].name
    {
      NamesComeApart(symbols, a, b);
    }
  }

  /** The first symbol with the name at b. */
  lemma {:induction false} FirstWithName(symbols: seq<Symbol>, b: nat) returns (c: nat)
    requires b < |symbols|
    ensures c <= b && symbols[c].name == symbols[b].name && !Repeats(symbols, c)
  {
    c := b;
    if Repeats(symbols, b) {
      var a :| 0 <= a < b && symbols[a].name == symbols[b].name;
      c := FirstWithName(symbols, a);
    }
  }

  lemma IsolationNeedsDistinct(symbols: seq<Symbol>, after: seq<Symbol>)
    requires IsRewrite(after, symbols) && Isolated(after)
    ensures DistinctInObjects(symbols)
  {
    forall a, b | 0 <= a < b < |symbols| && symbols[a].unit == symbols[b].unit
      ensures symbols[a].name != symbols[b].name
    {
      assert after[a].name != after[b].name;
    }
  }

  /** A name in use stays in use at its first owner, so making it up again leaves a duplicate. */
  lemma CollisionStays(symbols: seq<Symbol>, after: seq<Symbol>, a: nat, b: nat)
    requires IsRewrite(after, symbols) && DistinctInObjects(symbols) && Repeats(symbols, a) && b < |symbols|
    requires symbols[b].name == Target(symbols[a].unit, symbols[a].name)
    ensures !Isolated(after)
  {
    var c := FirstWithName(symbols, b);
    MovedIfRepeats(symbols, a);
    FirstStays(symbols, c);
    assert |symbols[a].name| < |symbols[c].name| && a != c;
    assert after[a].name == after[c].name;
  }

  /** The first owner keeps its name. */
  lemma FirstStays(symbols: seq<Symbol>, c: nat)
    requires DistinctInObjects(symbols) && c < |symbols| && !Repeats(symbols, c)
    ensures NewName(symbols, symbols[c].unit, symbols[c].name) == symbols[c].name
  {
    MovedMeansRepeats(symbols, symbols[c].unit, symbols[c].name);
    assert forall b: nat | Repeats(symbols, b) :: symbols[b] != symbols[c];
  }

  /** Whether the second scan finds nothing can be told from the input: every object must list a name once, and no name
      about to be made up may be in use. */
  lemma IsolationIsExact(symbols: seq<Symbol>, after: seq<Symbol>)
    requires IsRewrite(after, symbols)
    ensures Isolated(after) <==> DistinctInObjects(symbols) && TargetsAreNew(symbols)
  {
    if Isolated(after) {
      IsolationNeedsDistinct(symbols, after);
      forall a, b | 0 <= a < |symbols| && 0 <= b < |symbols| && Repeats(symbols, a)
        ensures symbols[b].name != Target(symbols[a].unit, symbols[a].name)
      {
        if symbols[b].name == Target(symbols[a].unit, symbols[a].name) {
          CollisionStays(symbols, after, a, b);
        }
      }
    }
    if DistinctInObjects(symbols) && TargetsAreNew(symbols) {
      IsolationWorks(symbols, after);
    }
  }

  ghost predicate Contains(text: string, part: string) {
    exists before, rest :: text == before + part + rest
  }

  /** Names without the marker cannot collide with made-up ones. */
  lemma MarkerFreeTargetsAreNew(symbols: seq<Symbol>)
    requires forall k | 0 <= k < |symbols| :: !Contains(symbols[k].name, MARKER)
    ensures TargetsAreNew(symbols)
  {
    forall a, b | 0 <= a < |symbols| && 0 <= b < |symbols| && Repeats(symbols, a)
      ensures symbols[b].name != Target(symbols[a].unit, symbols[a].name)
    {
      var n := symbols[a].name;
      var target := Target(symbols[a].unit, n);
      assert target == n + MARKER + Decimal(symbols[a].unit);
    }
  }

  lemma SecondOccurrenceRepeats(symbols: seq<Symbol>, name: Name)
    requires |Occurrences(symbols, name)| > 1
    ensures !Isolated(symbols)
  {
    var i := Occurrences(symbols, name)[1];
    assert i == Occurrences(symbols, name)[1..][0];
    MovedMeansRepeats(symbols, i, name);
    var b: nat :| Repeats(symbols, b) && symbols[b] == Symbol(i, name);
    var a :| 0 <= a < b && symbols[a].name == symbols[b].name;
  }

  /** No duplicates means that the occurrence lists have no second entry. */
  lemma IsolatedMeansNoDuplicates(symbols: seq<Symbol>)
    ensures Isolated(symbols) <==> forall name :: |Occurrences(symbols, name)| <= 1
  {
    if Isolated(symbols) {
      forall name
        ensures |Occurrences(symbols, name)| <= 1
      {
        if |Occurrences(symbols, name)| > 1 {
          SecondOccurrenceRepeats(symbols, name);
        }
      }
    }
    if !Isolated(symbols) {
      var a, b :| 0 <= a < b < |symbols| && symbols[a].name == symbols[b].name;
      assert Repeats(symbols, b);
      MovedIfRepeats(symbols, b);
      assert |Occurrences(symbols, symbols[b].name)| > 1;
    }
  }

  // ----- The rewrite

  /** One object's rename list: what to rename and into what. */
  type Mappings = seq<(Name, Name)>

  function Lookup(mappings: Mappings, name: Name): Name {
    if mappings == [] then name
    else if mappings[0].0 == name then mappings[0].1
    else Lookup(mappings[1..], name)
  }

  predicate Lists(mappings: Mappings, name: Name) {
    exists k :: 0 <= k < |mappings| && mappings[k].0 == name
  }

  ghost predicate MapsToTargets(mappings: Mappings, unit: nat) {
    forall k | 0 <= k < |mappings| :: mappings[k].1 == Target(unit, mappings[k].0)
  }

  lemma {:induction false} LookupFinds(mappings: Mappings, unit: nat, name: Name)
    requires MapsToTargets(mappings, unit)
    ensures Lookup(mappings, name) == if Lists(mappings, name) then Target(unit, name) else name
  {
    if mappings != [] && mappings[0].0 != name {
      LookupFinds(mappings[1..], unit, name);
      if Lists(mappings[1..], name) {
        var k :| 0 <= k < |mappings[1..]| && mappings[1..][k].0 == name;
        assert mappings[k + 1].0 == name;
      }
      if Lists(mappings, name) {
        var k :| 0 <= k < |mappings| && mappings[k].0 == name;
        assert mappings[1..][k - 1].0 == name;
      }
    }
  }

  function MappingsOf(renames: map<nat, Mappings>, unit: nat): Mappings {
    if unit in renames then renames[unit] else []
  }

  /** The renames listed for the first n objects. */
  function Listed(renames: map<nat, Mappings>, n: nat): nat {
    if n == 0 then 0 else Listed(renames, n - 1) + |MappingsOf(renames, n - 1)|
  }

  lemma {:induction false} ListedGrows(renames: map<nat, Mappings>, unit: nat, entry: (Name, Name), n: nat)
    ensures Listed(renames[unit := MappingsOf(renames, unit) + [entry]], n)
         == Listed(renames, n) + if unit < n then 1 else 0
  {
    if n > 0 {
      ListedGrows(renames, unit, entry, n - 1);
    }
  }

  /** How many symbols with a name in `names` are not the first with it. */
  ghost function RepeatCount(symbols: seq<Symbol>, names: set<Name>): nat {
    if symbols == [] then 0 else
      var n := |symbols| - 1;
      RepeatCount(symbols[..n], names) + if symbols[n].name in names && Repeats(symbols, n) then 1 else 0
  }

  /** A name accounts for its occurrences but one. */
  lemma {:induction false} RepeatCountGrows(symbols: seq<Symbol>, names: set<Name>, name: Name)
    requires name !in names
    ensures RepeatCount(symbols, names + {name})
         == RepeatCount(symbols, names) + if Occurrences(symbols, name) == [] then 0 else |Occurrences(symbols, name)| - 1
  {
    if symbols != [] {
      var n := |symbols| - 1;
      RepeatCountGrows(symbols[..n], names, name);
      OccurrencesCount(symbols[..n], name);
      if symbols[n].name == name {
        if Repeats(symbols, n) {
          var a :| 0 <= a < n && symbols[a].name == symbols[n].name;
          assert symbols[..n][a].name == name;
        }
        if a :| 0 <= a < n && symbols[..n][a].name == name {
          assert symbols[a].name == symbols[n].name;
        }
      }
    }
  }

  lemma {:induction false} RepeatCountOfAll(symbols: seq<Symbol>, all: seq<Symbol>, names: set<Name>, more: set<Name>)
    requires symbols <= all && names <= more
    requires forall name | name in more && name !in names :: |Occurrences(all, name)| <= 1
    ensures RepeatCount(symbols, names) == RepeatCount(symbols, more)
  {
    if symbols != [] {
      var n := |symbols| - 1;
      RepeatCountOfAll(symbols[..n], all, names, more);
      if symbols[n].name in more && Repeats(symbols, n) {
        assert Repeats(all, n);
        MovedIfRepeats(all, n);
      }
    }
  }

  /** The lists so far: exactly the repeating occurrences of the names dealt with. */
  ghost predicate RenamesFor(renames: map<nat, Mappings>, symbols: seq<Symbol>, names: set<Name>) {
    forall unit :: MapsToTargets(MappingsOf(renames, unit), unit)
                   && forall name :: Lists(MappingsOf(renames, unit), name) <==> name in names && Moved(symbols, unit, name)
  }

  /** As above, and the first k entries of the occurrence list of one more name. */
  ghost predicate RenamesUpTo(renames: map<nat, Mappings>, symbols: seq<Symbol>, names: set<Name>, name: Name, k: nat)
    requires 1 <= k <= |Occurrences(symbols, name)|
  {
    UnitsUpTo(renames, symbols, names, name, Occurrences(symbols, name)[1..k])
  }

  ghost predicate UnitsUpTo(renames: map<nat, Mappings>, symbols: seq<Symbol>, names: set<Name>, name: Name,
                            moved: seq<nat>) {
    forall unit :: UnitUpTo(MappingsOf(renames, unit), unit, symbols, names, name, moved)
  }

  ghost predicate UnitUpTo(mappings: Mappings, unit: nat, symbols: seq<Symbol>, names: set<Name>, name: Name,
                           moved: seq<nat>) {
    && MapsToTargets(mappings, unit)
    && forall other :: Lists(mappings, other) <==>
         (other in names && Moved(symbols, unit, other)) || (other == name && unit in moved)
  }

  lemma ListsAppend(mappings: Mappings, entry: (Name, Name))
    ensures forall name :: Lists(mappings + [entry], name) <==> Lists(mappings, name) || name == entry.0
  {
    var all := mappings + [entry];
    assert all[|mappings|] == entry;
    forall name
      ensures Lists(all, name) <==> Lists(mappings, name) || name == entry.0
    {
      if Lists(mappings, name) {
        var k :| 0 <= k < |mappings| && mappings[k].0 == name;
        assert all[k].0 == name;
      }
    }
  }

  lemma RenamesStep(renames: map<nat, Mappings>, symbols: seq<Symbol>, names: set<Name>, name: Name, k: nat)
    requires 1 <= k < |Occurrences(symbols, name)| && RenamesUpTo(renames, symbols, names, name, k)
    ensures var unit := Occurrences(symbols, name)[k];
            RenamesUpTo(renames[unit := MappingsOf(renames, unit) + [(name, Target(unit, name))]],
                        symbols, names, name, k + 1)
  {
    var indices := Occurrences(symbols, name);
    UnitsStep(renames, symbols, names, name, indices[1..k], indices[k]);
    SliceGrows(indices, 1, k);
  }

  lemma UnitsStep(renames: map<nat, Mappings>, symbols: seq<Symbol>, names: set<Name>, name: Name, moved: seq<nat>,
                  next: nat)
    requires UnitsUpTo(renames, symbols, names, name, moved)
    ensures UnitsUpTo(renames[next := MappingsOf(renames, next) + [(name, Target(next, name))]],
                      symbols, names, name, moved + [next])
  {
    var grown := renames[next := MappingsOf(renames, next) + [(name, Target(next, name))]];
    forall unit
      ensures UnitUpTo(MappingsOf(grown, unit), unit, symbols, names, name, moved + [next])
    {
      assert UnitUpTo(MappingsOf(renames, unit), unit, symbols, names, name, moved);
      GrownUnit(renames, unit, symbols, names, name, moved, next);
    }
  }

  lemma GrownUnit(renames: map<nat, Mappings>, unit: nat, symbols: seq<Symbol>, names: set<Name>, name: Name,
                  moved: seq<nat>, next: nat)
    requires UnitUpTo(MappingsOf(renames, unit), unit, symbols, names, name, moved)
    ensures UnitUpTo(MappingsOf(renames[next := MappingsOf(renames, next) + [(name, Target(next, name))]], unit),
                     unit, symbols, names, name, moved + [next])
  {
    if unit == next {
      UnitStep(MappingsOf(renames, unit), unit, symbols, names, name, moved);
    } else {
      OtherUnit(MappingsOf(renames, unit), unit, symbols, names, name, moved, next);
    }
  }

  lemma OtherUnit(mappings: Mappings, unit: nat, symbols: seq<Symbol>, names: set<Name>, name: Name, moved: seq<nat>,
                  next: nat)
    requires UnitUpTo(mappings, unit, symbols, names, name, moved) && unit != next
    ensures UnitUpTo(mappings, unit, symbols, names, name, moved + [next])
  {
  }

  lemma UnitStep(mappings: Mappings, unit: nat, symbols: seq<Symbol>, names: set<Name>, name: Name, moved: seq<nat>)
    requires UnitUpTo(mappings, unit, symbols, names, name, moved)
    ensures UnitUpTo(mappings + [(name, Target(unit, name))], unit, symbols, names, name, moved + [unit])
  {
    ListsAppend(mappings, (name, Target(unit, name)));
  }

  method CollectRenames(duplicates: map<Name, seq<nat>>, ghost symbols: seq<Symbol>, count: nat)
    returns (renames: map<nat, Mappings>)
    requires IsDuplicates(duplicates, symbols)
    requires forall k | 0 <= k < |symbols| :: symbols[k].unit < count
    ensures RenamesFor(renames, symbols, duplicates.Keys)
    ensures Listed(renames, count) == RepeatCount(symbols, duplicates.Keys)
  {
    renames := map[];
    var pending := duplicates.Keys;
    ghost var done: set<Name> := {};
    NothingListed(count);
    NothingCounted(symbols);
    while pending != {}
      invariant done !! pending && done + pending == duplicates.Keys
      invariant RenamesFor(renames, symbols, done)
      invariant Listed(renames, count) == RepeatCount(symbols, done)
    {
      var name :| name in pending;
      var indices := duplicates[name];
      RepeatCountGrows(symbols, done, name);
      assert indices[1..1] == [];
      for k := 1 to |indices|
        invariant RenamesUpTo(renames, symbols, done, name, k)
        invariant Listed(renames, count) == RepeatCount(symbols, done) + k - 1
      {
        var index := indices[k];
        RenamesStep(renames, symbols, done, name, k);
        OccurrencesAreUnits(symbols, name, count);
        ListedGrows(renames, index, (name, Target(index, name)), count);
        renames := renames[index := MappingsOf(renames, index) + [(name, Target(index, name))]];
      }
      assert indices[1..|indices|] == indices[1..];
      done := done + {name};
      pending := pending - {name};
    }
  }

  lemma {:induction false} NothingListed(n: nat)
    ensures Listed(map[], n) == 0
  {
    if n > 0 {
      NothingListed(n - 1);
    }
  }

  lemma {:induction false} NothingCounted(symbols: seq<Symbol>)
    ensures RepeatCount(symbols, {}) == 0
  {
    if symbols != [] {
      NothingCounted(symbols[..|symbols| - 1]);
    }
  }

  lemma {:induction false} OccurrencesAreUnits(symbols: seq<Symbol>, name: Name, count: nat)
    requires forall k | 0 <= k < |symbols| :: symbols[k].unit < count
    ensures forall k | 0 <= k < |Occurrences(symbols, name)| :: Occurrences(symbols, name)[k] < count
  {
    if symbols != [] {
      OccurrencesAreUnits(symbols[..|symbols| - 1], name, count);
    }
  }

  method RewriteObject(names: seq<Name>, mappings: Mappings) returns (rewritten: seq<Name>)
    ensures |rewritten| == |names|
    ensures forall k | 0 <= k < |names| :: rewritten[k] == Lookup(mappings, names[k])
  {
    rewritten := [];
    for k := 0 to |names|
      invariant |rewritten| == k && forall j | 0 <= j < k :: rewritten[j] == Lookup(mappings, names[j])
    {
      rewritten := rewritten + [Lookup(mappings, names[k])];
    }
  }

  /** The objects with every repeated name replaced outside its first owner. */
  ghost predicate ObjectsRewritten(after: seq<seq<Name>>, objects: seq<seq<Name>>, n: nat)
    requires n <= |objects|
  {
    && |after| == |objects|
    && forall i | 0 <= i < |objects| ::
         && |after[i]| == |objects[i]|
         && forall k | 0 <= k < |objects[i]| ::
              after[i][k] == if i < n then NewName(Symbols(objects), i, objects[i][k]) else objects[i][k]
  }

  datatype Panic = StillDuplicated(names: set<Name>)

  method RewriteObjects(objects: seq<seq<Name>>, renames: map<nat, Mappings>, ghost duplicates: map<Name, seq<nat>>)
    returns (current: seq<seq<Name>>, renameCount: nat)
    requires IsDuplicates(duplicates, Symbols(objects))
    requires RenamesFor(renames, Symbols(objects), duplicates.Keys)
    ensures ObjectsRewritten(current, objects, |objects|)
    ensures renameCount == Listed(renames, |objects|)
  {
    current := objects;
    renameCount := 0;
    for index := 0 to |objects|
      invariant ObjectsRewritten(current, objects, index)
      invariant renameCount == Listed(renames, index)
    {
      RewrittenNames(objects, renames, duplicates, index);
      if index in renames {
        var rewritten := RewriteObject(current[index], renames[index]);
        current := current[index := rewritten];
        renameCount := renameCount + |renames[index]|;
      }
    }
  }

  /** Succeeds, renaming every repeated symbol, exactly when every object lists a name once and no name to be made up is
      in use; otherwise the second scan panics. */
  method NamespaceConflictingWeakStaticStrings(objects: seq<seq<Name>>)
    returns (r: Result<(seq<seq<Name>>, nat), Panic>)
    ensures r.Ok? <==> DistinctInObjects(Symbols(objects)) && TargetsAreNew(Symbols(objects))
    ensures r.Ok? ==>
              && ObjectsRewritten(r.value.0, objects, |objects|)
              && Isolated(Symbols(r.value.0))
              && r.value.1 == RepeatCount(Symbols(objects), NamesOf(Symbols(objects)))
  {
    var duplicates := DuplicateWeakStaticStrings(objects);
    CountOfDuplicates(objects, duplicates);
    if duplicates == map[] {
      NoDuplicatesNothingMoves(objects, duplicates);
      return Ok((objects, 0));
    }
    UnitsAreObjects(objects, |objects|);
    var renames := CollectRenames(duplicates, Symbols(objects), |objects|);
    var current, renameCount := RewriteObjects(objects, renames, duplicates);
    var remaining := DuplicateWeakStaticStrings(current);
    RemainingIsExact(objects, current, remaining);
    if remaining != map[] {
      return Err(StillDuplicated(remaining.Keys));
    }
    r := Ok((current, renameCount));
  }

  ghost function NamesOf(symbols: seq<Symbol>): set<Name> {
    set s | s in symbols :: s.name
  }

  lemma CountOfDuplicates(objects: seq<seq<Name>>, duplicates: map<Name, seq<nat>>)
    requires IsDuplicates(duplicates, Symbols(objects))
    ensures var symbols := Symbols(objects);
            && RepeatCount(symbols, duplicates.Keys) == RepeatCount(symbols, NamesOf(symbols))
            && (duplicates == map[] ==> RepeatCount(symbols, duplicates.Keys) == 0)
  {
    var symbols := Symbols(objects);
    DuplicatesAreNames(duplicates, symbols);
    RepeatCountOfAll(symbols, symbols, duplicates.Keys, NamesOf(symbols));
    if duplicates == map[] {
      assert duplicates.Keys == {};
      NothingCounted(symbols);
    }
  }

  lemma RemainingIsExact(objects: seq<seq<Name>>, current: seq<seq<Name>>, remaining: map<Name, seq<nat>>)
    requires ObjectsRewritten(current, objects, |objects|) && IsDuplicates(remaining, Symbols(current))
    ensures remaining == map[] <==> Isolated(Symbols(current))
    ensures remaining == map[] <==> DistinctInObjects(Symbols(objects)) && TargetsAreNew(Symbols(objects))
  {
    RewriteOfScan(objects, current, |objects|);
    IsolationIsExact(Symbols(objects), Symbols(current));
    IsolatedMeansNoDuplicates(Symbols(current));
    if remaining != map[] {
      var name :| name in remaining;
      SecondOccurrenceRepeats(Symbols(current), name);
    } else {
      assert forall name :: |Occurrences(Symbols(current), name)| <= 1;
      assert Isolated(Symbols(current));
    }
  }

  lemma {:induction false} UnitsAreObjects(objects: seq<seq<Name>>, n: nat)
    requires n <= |objects|
    ensures forall s | s in Scan(objects, n) :: s.unit < n
  {
    if n > 0 {
      UnitsAreObjects(objects, n - 1);
    }
  }

  lemma DuplicatesAreNames(duplicates: map<Name, seq<nat>>, symbols: seq<Symbol>)
    requires IsDuplicates(duplicates, symbols)
    ensures var all := NamesOf(symbols);
            duplicates.Keys <= all && forall name | name in all && name !in duplicates.Keys :: |Occurrences(symbols, name)| <= 1
  {
    forall name | name in duplicates
      ensures exists s :: s in symbols && s.name == name
    {
      OccurrencesCount(symbols, name);
      var a :| 0 <= a < |symbols| && symbols[a].name == name;
      assert symbols[a] in symbols;
    }
  }

  lemma NoDuplicatesNothingMoves(objects: seq<seq<Name>>, duplicates: map<Name, seq<nat>>)
    requires IsDuplicates(duplicates, Symbols(objects)) && duplicates == map[]
    ensures ObjectsRewritten(objects, objects, |objects|) && Isolated(Symbols(objects))
    ensures DistinctInObjects(Symbols(objects)) && TargetsAreNew(Symbols(objects))
  {
    var symbols := Symbols(objects);
    forall name
      ensures |Occurrences(symbols, name)| <= 1
    {
    }
    IsolatedMeansNoDuplicates(symbols);
    IsolationIsExact(symbols, symbols);
  }

  lemma RewrittenNames(objects: seq<seq<Name>>, renames: map<nat, Mappings>, duplicates: map<Name, seq<nat>>, index: nat)
    requires index < |objects| && IsDuplicates(duplicates, Symbols(objects))
    requires RenamesFor(renames, Symbols(objects), duplicates.Keys)
    ensures forall name :: Lookup(MappingsOf(renames, index), name) == NewName(Symbols(objects), index, name)
  {
    forall name
      ensures Lookup(MappingsOf(renames, index), name) == NewName(Symbols(objects), index, name)
    {
      LookupFinds(MappingsOf(renames, index), index, name);
      assert Lists(MappingsOf(renames, index), name) <==> name in duplicates.Keys && Moved(Symbols(objects), index, name);
    }
  }

  lemma {:induction false} RewriteOfScan(objects: seq<seq<Name>>, after: seq<seq<Name>>, n: nat)
    requires n <= |objects| && ObjectsRewritten(after, objects, |objects|)
    ensures var all := Symbols(objects);
            && |Scan(after, n)| == |Scan(objects, n)|
            && forall k | 0 <= k < |Scan(objects, n)| ::
                 Scan(after, n)[k] ==
                    Symbol(Scan(objects, n)[k].unit, NewName(all, Scan(objects, n)[k].unit, Scan(objects, n)[k].name))
  {
    if n > 0 {
      RewriteOfScan(objects, after, n - 1);
      RewriteOfObject(objects, after, n - 1);
    }
  }

  lemma RewriteOfObject(objects: seq<seq<Name>>, after: seq<seq<Name>>, i: nat)
    requires i < |objects| && ObjectsRewritten(after, objects, |objects|)
    ensures |Tagged(i, after[i])| == |Tagged(i, objects[i])|
    ensures forall k | 0 <= k < |objects[i]| ::
              Tagged(i, after[i])[k] == Symbol(i, NewName(Symbols(objects), i, objects[i][k]))
  {
  }
}
