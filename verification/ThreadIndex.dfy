/** The lookup of the model selection last used with a provider, over several thread databases. */
module ThreadIndex {
  import opened Basics
  import opened UnicodeText

  const THREAD_PREFERENCE_SCAN_LIMIT: nat := 4_096

  type Provider = nat

  /** The trimmed text, unless nothing is left of it. */
  function NonBlank(s: Option<Text>): Option<Text> {
    if s.None? || Trim(s.value) == [] then None else Some(Trim(s.value))
  }

  predicate IsI64(n: int) {
    I64_MIN <= n <= I64_MAX
  }

  /** What a column without a strict type may hold as a time. Text, or a blob, is in arithmetic the number it begins
      with; `number` is that number where it is an integer. */
  datatype Stored =
    | Missing
    | Integer(integer: int)
    | Real(fraction: real)
    | Infinite(positive: bool)
    | Textual(number: Option<int>)

  /** The query on a column of milliseconds, or, without such a column, on one of seconds. */
  datatype Query = Milliseconds | Seconds

  /** The time that the query yields as an integer, if it does: seconds are multiplied in the database, where the
      product stops being an integer on overflow. */
  function Timed(q: Query, s: Stored): Option<int> {
    match q
    case Milliseconds => if s.Integer? then Some(s.integer) else None
    case Seconds =>
      if s.Integer? && IsI64(s.integer * 1000) then Some(s.integer * 1000)
      else if s.Textual? && s.number.Some? && IsI64(s.number.value * 1000) then Some(s.number.value * 1000)
      else None
  }

  /** The time the code reads: zero for anything that is no integer. */
  function TimeRead(q: Query, s: Stored): int {
    if Timed(q, s).Some? then Timed(q, s).value else 0
  }

  /** A stored row. An unreadable one is skipped. */
  datatype Row =
    | Unreadable(updated: Stored)
    | Row(modelProvider: Option<Text>, model: Option<Text>, reasoningEffort: Option<Text>, updated: Stored)

  /** A database that cannot be opened or queried, or all its rows that have a model, as the query orders them. */
  datatype Database = Unavailable | Ordered(query: Query, rows: seq<Row>)

  /** The rows the query returns: it stops at the scan limit. */
  function Scanned(d: Database): (rows: seq<Row>)
    ensures d.Ordered? ==> rows <= d.rows && |rows| == if |d.rows| < 4_096 then |d.rows| else 4_096
  {
    if d.Unavailable? then []
    else if |d.rows| <= THREAD_PREFERENCE_SCAN_LIMIT then d.rows
    else d.rows[..THREAD_PREFERENCE_SCAN_LIMIT]
  }

  datatype Selection = Selection(updatedAt: int, model: Text, reasoningEffort: Option<Text>)

  type Resolver = Text -> Option<Provider>

  /** What a row offers: nothing unless it names a model and belongs to the wanted provider. */
  function Offer(resolve: Resolver, wanted: Provider, q: Query, r: Row): Option<Selection> {
    if r.Unreadable? || r.modelProvider.None? || resolve(r.modelProvider.value) != Some(wanted)
       || NonBlank(r.model).None?
    then None
    else Some(Selection(TimeRead(q, r.updated), NonBlank(r.model).value, NonBlank(r.reasoningEffort)))
  }

  ghost predicate HasVisible(s: Text) {
    exists i | 0 <= i < |s| :: !IsSpace(s[i])
  }

  ghost predicate IsVisible(s: Text, t: Text) {
    exists lo: nat, hi: nat :: IsVisiblePart(s, lo, hi) && t == s[lo..hi]
  }

  /** The visible part of the text, if there is a text and anything of it is visible. */
  ghost predicate IsNonBlankOf(s: Option<Text>, t: Option<Text>) {
    && (t.Some? <==> s.Some? && HasVisible(s.value))
    && (t.Some? ==> IsVisible(s.value, t.value))
  }

  lemma NonBlankIs(s: Option<Text>)
    ensures IsNonBlankOf(s, NonBlank(s))
  {
    if s.Some? {
      var lo, hi := TrimIs(s.value);
      if HasVisible(s.value) {
        var i :| 0 <= i < |s.value| && !IsSpace(s.value[i]);
        assert lo <= i < hi;
      }
    }
  }

  /** A row offers something exactly when it can be read, its provider resolves to the wanted one and its model is not
      blank: the visible parts of its model and of its reasoning effort, if that is not blank, with its time in
      milliseconds, or zero where it has none that is an integer. */
  lemma OfferIs(resolve: Resolver, wanted: Provider, q: Query, r: Row)
    ensures var o := Offer(resolve, wanted, q, r);
            && (o.Some? ==>
                  && r.Row? && r.modelProvider.Some? && resolve(r.modelProvider.value) == Some(wanted)
                  && IsNonBlankOf(r.model, Some(o.value.model))
                  && IsNonBlankOf(r.reasoningEffort, o.value.reasoningEffort)
                  && o.value.updatedAt == PlainTime(q, r.updated))
            && (o.None? ==>
                  || r.Unreadable? || r.modelProvider.None? || resolve(r.modelProvider.value) != Some(wanted)
                  || IsNonBlankOf(r.model, None))
  {
    if r.Row? {
      NonBlankIs(r.model);
      NonBlankIs(r.reasoningEffort);
    }
    TimeReadIs(q, r.updated);
  }

  lemma TimeReadIs(q: Query, s: Stored)
    ensures TimeRead(q, s) == PlainTime(q, s)
  {
  }

  /** The time of a column, case by case. */
  function PlainTime(q: Query, s: Stored): int {
    match (q, s)
    case (Milliseconds, Integer(n)) => n
    case (Seconds, Integer(n)) => if -0x8000_0000_0000_0000 <= 1000 * n < 0x8000_0000_0000_0000 then 1000 * n else 0
    case (Seconds, Textual(Some(n))) =>
      if -0x8000_0000_0000_0000 <= 1000 * n < 0x8000_0000_0000_0000 then 1000 * n else 0
    case _ => 0
  }

  type Offers = seq<Option<Selection>>

  function OffersOf(resolve: Resolver, wanted: Provider, d: Database): (offers: Offers)
    ensures |offers| == |Scanned(d)|
    ensures forall j | 0 <= j < |Scanned(d)| :: offers[j] == Offer(resolve, wanted, d.query, Scanned(d)[j])
  {
    var rows := Scanned(d);
    seq(|rows|, j requires 0 <= j < |rows| => Offer(resolve, wanted, d.query, rows[j]))
  }

  function AllOffers(resolve: Resolver, wanted: Provider, dbs: seq<Database>): (all: seq<Offers>)
    ensures |all| == |dbs| && forall i | 0 <= i < |dbs| :: all[i] == OffersOf(resolve, wanted, dbs[i])
  {
    seq(|dbs|, i requires 0 <= i < |dbs| => OffersOf(resolve, wanted, dbs[i]))
  }

  // ----- What the loops select

  /** Offer f is the first of its database. */
  ghost predicate FirstOf(offers: Offers, f: nat) {
    f < |offers| && offers[f].Some? && forall l | 0 <= l < f :: offers[l].None?
  }

  ghost predicate IsFirst(all: seq<Offers>, i: nat, j: nat) {
    i < |all| && FirstOf(all[i], j)
  }

  /** Offer (i, j) beats the first offers of the first n databases; ties go to the earlier database. */
  ghost predicate Wins(all: seq<Offers>, n: nat, i: nat, j: nat) {
    && i < n && IsFirst(all, i, j)
    && forall i': nat, j': nat | i' < n && IsFirst(all, i', j') ::
         var t, t' := all[i][j].value.updatedAt, all[i'][j'].value.updatedAt;
         t > t' || (t == t' && i <= i')
  }

  ghost predicate Selects(all: seq<Offers>, n: nat, best: Option<Selection>) {
    match best
    case None => forall i: nat, j: nat | i < n :: !IsFirst(all, i, j)
    case Some(_) => exists i: nat, j: nat :: Wins(all, n, i, j) && best == all[i][j]
  }

  method LatestRuntimeThreadModelSelection(resolve: Resolver, wanted: Provider, dbs: seq<Database>)
    returns (best: Option<Selection>)
    ensures Selects(AllOffers(resolve, wanted, dbs), |dbs|, best)
    ensures (forall i | 0 <= i < |dbs| :: OrderedByQuery(dbs[i])) ==> LatestUnlessHidden(resolve, wanted, dbs, best)
  {
    ghost var all := AllOffers(resolve, wanted, dbs);
    best := None;
    for i := 0 to |dbs|
      invariant Selects(all, i, best)
    {
      ghost var before, matched := best, false;
      if dbs[i].Ordered? {
        var rows := Scanned(dbs[i]);
        for j := 0 to |rows|
          invariant !matched && best == before
          invariant forall k | 0 <= k < j :: all[i][k].None?
        {
          if rows[j].Unreadable? || rows[j].modelProvider.None? {
            continue;
          }
          if resolve(rows[j].modelProvider.value) != Some(wanted) {
            continue;
          }
          var model := NonBlank(rows[j].model);
          if model.None? {
            continue;
          }
          var updatedAt := TimeRead(dbs[i].query, rows[j].updated);
          matched := true;
          TakeOffer(all, i, j, best);
          if best.None? || updatedAt > best.value.updatedAt {
            best := Some(Selection(updatedAt, model.value, NonBlank(rows[j].reasoningEffort)));
          }
          break;
        }
      }
      if !matched {
        SkipDatabase(all, i, best);
      }
    }
    if forall i | 0 <= i < |dbs| :: OrderedByQuery(dbs[i]) {
      SelectionIsLatest(resolve, wanted, dbs, best);
    }
  }

  lemma SkipDatabase(all: seq<Offers>, n: nat, best: Option<Selection>)
    requires n < |all| && Selects(all, n, best) && forall k | 0 <= k < |all[n]| :: all[n][k].None?
    ensures Selects(all, n + 1, best)
  {
    if best.Some? {
      var i: nat, j: nat :| Wins(all, n, i, j) && best == all[i][j];
      assert Wins(all, n + 1, i, j);
    }
  }

  lemma TakeOffer(all: seq<Offers>, n: nat, j: nat, best: Option<Selection>)
    requires n < |all| && Selects(all, n, best) && IsFirst(all, n, j)
    ensures var offer := all[n][j];
            Selects(all, n + 1, if best.None? || offer.value.updatedAt > best.value.updatedAt then offer else best)
  {
    if best.None? || all[n][j].value.updatedAt > best.value.updatedAt {
      OnlyFirst(all, n, j);
      assert Wins(all, n + 1, n, j);
    } else {
      OnlyFirst(all, n, j);
      var i0: nat, j0: nat :| Wins(all, n, i0, j0) && best == all[i0][j0];
      assert Wins(all, n + 1, i0, j0);
    }
  }

  lemma OnlyFirst(all: seq<Offers>, n: nat, j: nat)
    requires IsFirst(all, n, j)
    ensures forall k: nat | IsFirst(all, n, k) :: k == j
  {
  }

  // ----- When the first of each database is enough

  /** Where a value stands in the ascending order of the database: numbers lie between the infinities, text and blobs
      come last. */
  function Rank(s: Stored): nat {
    match s
    case Missing => 0
    case Infinite(positive) => if positive then 3 else 1
    case Integer(_) => 2
    case Real(_) => 2
    case Textual(_) => 4
  }

  function Number(s: Stored): real
    requires Rank(s) == 2
  {
    if s.Integer? then s.integer as real else s.fraction
  }

  /** In descending order a may come before b. Text among itself comes in some order that does not matter here. */
  predicate MayPrecede(a: Stored, b: Stored) {
    Rank(a) > Rank(b) || (Rank(a) == Rank(b) && (Rank(a) == 2 ==> Number(a) >= Number(b)))
  }

  /** The rows are as the query orders them. */
  ghost predicate OrderedByQuery(d: Database) {
    d.Ordered? ==> forall j, k | 0 <= j < k < |d.rows| :: MayPrecede(d.rows[j].updated, d.rows[k].updated)
  }

  /** The order of the query lets the first value come before a later time. A value that is no integer reads as zero,
      which is later than a negative time before it and earlier than a positive time after it; and text, which is not
      ordered as a number, may give any two times. */
  predicate Hides(q: Query, first: Stored, later: Stored) {
    match (Timed(q, first), Timed(q, later))
    case (Some(t), None) => t < 0
    case (None, Some(u)) => u > 0
    case (Some(t), Some(u)) => first.Textual? && t < u
    case (None, None) => false
  }

  /** Offer k of the database is one that its first offer hides. */
  ghost predicate Hidden(resolve: Resolver, wanted: Provider, d: Database, k: nat) {
    var offers := OffersOf(resolve, wanted, d);
    k < |offers| && offers[k].Some?
    && exists f: nat ::
         f < k && FirstOf(offers, f) && Hides(d.query, Scanned(d)[f].updated, Scanned(d)[k].updated)
  }

  /** Offer k of the database is later than its first. */
  ghost predicate LaterThanFirst(offers: Offers, k: nat) {
    k < |offers| && offers[k].Some?
    && exists f: nat :: f < k && FirstOf(offers, f) && offers[f].value.updatedAt < offers[k].value.updatedAt
  }

  /** In the order of the query, a value is later than an earlier one exactly where that hides it. */
  lemma LaterIsHidden(q: Query, first: Stored, later: Stored)
    requires MayPrecede(first, later)
    ensures TimeRead(q, first) < TimeRead(q, later) <==> Hides(q, first, later)
  {
  }

  /** The order of the query makes the first offer of a database its latest, but for the hidden ones, which are later. */
  lemma FirstIsLatestUnlessHidden(resolve: Resolver, wanted: Provider, d: Database, k: nat)
    requires OrderedByQuery(d)
    ensures LaterThanFirst(OffersOf(resolve, wanted, d), k) <==> Hidden(resolve, wanted, d, k)
  {
    var offers := OffersOf(resolve, wanted, d);
    forall f: nat | f < k < |offers| && offers[f].Some? && offers[k].Some?
      ensures offers[f].value.updatedAt < offers[k].value.updatedAt <==>
              Hides(d.query, Scanned(d)[f].updated, Scanned(d)[k].updated)
    {
      LaterIsHidden(d.query, Scanned(d)[f].updated, Scanned(d)[k].updated);
    }
  }

  /** Offer x at (i', j') does not come before offer y at (i, j) in the order latest, database, row. */
  predicate NotLater(x: Selection, i': nat, j': nat, y: Selection, i: nat, j: nat) {
    x.updatedAt < y.updatedAt || (x.updatedAt == y.updatedAt && (i < i' || (i == i' && j <= j')))
  }

  /** Offer (i, j) comes before all others in that order. */
  ghost predicate IsLatest(all: seq<Offers>, i: nat, j: nat) {
    && i < |all| && j < |all[i]| && all[i][j].Some?
    && forall i': nat, j': nat | i' < |all| && j' < |all[i']| && all[i'][j'].Some? ::
         NotLater(all[i'][j'].value, i', j', all[i][j].value, i, j)
  }

  /** The first offer of some database comes before offer (i, k), or is that offer. */
  ghost predicate Outdone(all: seq<Offers>, i: nat, k: nat)
    requires i < |all| && k < |all[i]| && all[i][k].Some?
  {
    exists i': nat, f: nat :: IsFirst(all, i', f) && NotLater(all[i][k].value, i, k, all[i'][f].value, i', f)
  }

  /** Whatever a first offer hides, another database has something better to offer. */
  ghost predicate HiddenAreOutdone(resolve: Resolver, wanted: Provider, dbs: seq<Database>) {
    forall i: nat, k: nat | i < |dbs| && Hidden(resolve, wanted, dbs[i], k) ::
      Outdone(AllOffers(resolve, wanted, dbs), i, k)
  }

  /** The selection, if there is one, is that of the latest offer of all, ties going to the earliest database and then
      the earliest row, if and only if the hidden offers are outdone. There is one if there is any offer. */
  ghost predicate LatestUnlessHidden(resolve: Resolver, wanted: Provider, dbs: seq<Database>, best: Option<Selection>) {
    var all := AllOffers(resolve, wanted, dbs);
    match best
    case None => forall i, j | 0 <= i < |all| && 0 <= j < |all[i]| :: all[i][j].None?
    case Some(_) =>
      exists i: nat, j: nat ::
        && Wins(all, |dbs|, i, j) && best == all[i][j]
        && (IsLatest(all, i, j) <==> HiddenAreOutdone(resolve, wanted, dbs))
  }

  lemma {:induction false} FirstOffer(all: seq<Offers>, i: nat, j: nat) returns (f: nat)
    requires i < |all| && j < |all[i]| && all[i][j].Some?
    ensures f <= j && IsFirst(all, i, f)
  {
    f := j;
    if k: nat :| k < j && all[i][k].Some? {
      f := FirstOffer(all, i, k);
    }
  }

  /** From the rows to the result of the loops. */
  lemma SelectionIsLatest(resolve: Resolver, wanted: Provider, dbs: seq<Database>, best: Option<Selection>)
    requires forall i | 0 <= i < |dbs| :: OrderedByQuery(dbs[i])
    requires Selects(AllOffers(resolve, wanted, dbs), |dbs|, best)
    ensures LatestUnlessHidden(resolve, wanted, dbs, best)
  {
    var all: seq<Offers> := AllOffers(resolve, wanted, dbs);
    match best
    case None =>
      forall i: nat, j: nat | i < |all| && j < |all[i]|
        ensures all[i][j].None?
      {
        if all[i][j].Some? {
          var f := FirstOffer(all, i, j);
        }
      }
    case Some(_) =>
      var i: nat, j: nat :| Wins(all, |dbs|, i, j) && best == all[i][j];
      if IsLatest(all, i, j) {
        LatestOutdoes(resolve, wanted, dbs, i, j);
      }
      if HiddenAreOutdone(resolve, wanted, dbs) {
        WinnerIsLatest(resolve, wanted, dbs, i, j);
      }
  }

  lemma LatestOutdoes(resolve: Resolver, wanted: Provider, dbs: seq<Database>, i: nat, j: nat)
    requires IsFirst(AllOffers(resolve, wanted, dbs), i, j) && IsLatest(AllOffers(resolve, wanted, dbs), i, j)
    ensures HiddenAreOutdone(resolve, wanted, dbs)
  {
    var all: seq<Offers> := AllOffers(resolve, wanted, dbs);
    forall i': nat, k: nat | i' < |dbs| && Hidden(resolve, wanted, dbs[i'], k)
      ensures Outdone(all, i', k)
    {
      assert NotLater(all[i'][k].value, i', k, all[i][j].value, i, j);
    }
  }

  lemma WinnerIsLatest(resolve: Resolver, wanted: Provider, dbs: seq<Database>, i: nat, j: nat)
    requires forall i | 0 <= i < |dbs| :: OrderedByQuery(dbs[i])
    requires Wins(AllOffers(resolve, wanted, dbs), |dbs|, i, j) && HiddenAreOutdone(resolve, wanted, dbs)
    ensures IsLatest(AllOffers(resolve, wanted, dbs), i, j)
  {
    var all: seq<Offers> := AllOffers(resolve, wanted, dbs);
    forall i': nat, k: nat | i' < |all| && k < |all[i']| && all[i'][k].Some?
      ensures NotLater(all[i'][k].value, i', k, all[i][j].value, i, j)
    {
      var f := FirstOffer(all, i', k);
      FirstIsLatestUnlessHidden(resolve, wanted, dbs[i'], k);
      if Hidden(resolve, wanted, dbs[i'], k) {
        assert Outdone(all, i', k);
      } else {
        assert FirstOf(all[i'], f);
      }
    }
  }

  /** A database with a row from some day in 2026 and a row from one millisecond after the epoch. */
  function Dated(provider: Text, dated: Text, timed: Text): Database {
    Ordered(Milliseconds, [
      Row(Some(provider), Some(dated), None, Textual(Some(2026))),
      Row(Some(provider), Some(timed), None, Integer(1))])
  }

  /** A date written as text comes first, reads as zero and hides a time, although no time is negative. */
  lemma DateHidesTime(resolve: Resolver, wanted: Provider, provider: Text,
      dated: Text, timed: Text, best: Option<Selection>)
    requires resolve(provider) == Some(wanted) && Trim(dated) != [] && Trim(timed) != []
    requires Selects(AllOffers(resolve, wanted, [Dated(provider, dated, timed)]), 1, best)
    ensures OrderedByQuery(Dated(provider, dated, timed))
    ensures Hidden(resolve, wanted, Dated(provider, dated, timed), 1)
    ensures best == Some(Selection(0, Trim(dated), None))
    ensures OffersOf(resolve, wanted, Dated(provider, dated, timed))[1] == Some(Selection(1, Trim(timed), None))
  {
    var d := Dated(provider, dated, timed);
    var all: seq<Offers> := AllOffers(resolve, wanted, [d]);
    assert FirstOf(all[0], 0) && IsFirst(all, 0, 0);
    assert Hides(d.query, Scanned(d)[0].updated, Scanned(d)[1].updated);
  }
}
