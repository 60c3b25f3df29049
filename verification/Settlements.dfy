/** From funding revisions to one settlement per effective time. */
module Settlements {
  import opened Numbers
  import opened Ordering

  datatype Stream = Bybit | Hyperliquid

  datatype Asset = BTC | ETH | SOL

  /** The symbol a venue trades the asset under. */
  function ExpectedSymbol(venue: Stream, asset: Asset): string {
    var name := match asset case BTC => "BTC" case ETH => "ETH" case SOL => "SOL";
    if venue.Bybit? then name + "USDT" else name
  }

  /** A symbol names one asset at one venue; Bybit's is Hyperliquid's followed by the quote currency. */
  lemma SymbolNamesStream(venue: Stream, asset: Asset, venue': Stream, asset': Asset)
    ensures ExpectedSymbol(venue, asset) == ExpectedSymbol(venue', asset') <==> venue == venue' && asset == asset'
    ensures ExpectedSymbol(Bybit, asset) == ExpectedSymbol(Hyperliquid, asset) + "USDT"
  {
    var a, b := ExpectedSymbol(venue, asset), ExpectedSymbol(venue', asset');
    assert |a| == (if venue.Bybit? then 7 else 3) && |b| == (if venue'.Bybit? then 7 else 3);
    if asset != asset' {
      assert a[0] != b[0];
    }
  }

  /** One revision of a funding settlement; times are microseconds since the epoch. */
  datatype Row = Row(
    venue: Stream,
    asset: Asset,
    symbol: string,
    rate: real,
    intervalHours: real,
    effectiveAt: int,
    observedAt: int,
    sourceHash: string)

  datatype Request = Request(venue: Stream, asset: Asset, start: int, end: int, knownAsOf: int)

  datatype Settlement = Settlement(effectiveAt: int, observedAt: int, rate: real, intervalHours: real)

  /** The six checks a row passes before it is grouped. */
  predicate Admissible(row: Row, q: Request) {
    && row.venue == q.venue
    && row.asset == q.asset
    && row.symbol == ExpectedSymbol(q.venue, q.asset)
    && q.start < row.effectiveAt <= q.end
    && row.observedAt <= q.knownAsOf
    && row.effectiveAt <= row.observedAt
  }

  /** What a row is refused for: another stream's, out of the window, seen too late, or seen before it took effect. */
  predicate Unusable(row: Row, q: Request) {
    || (row.venue, row.asset) != (q.venue, q.asset)
    || row.symbol != ExpectedSymbol(row.venue, row.asset)
    || row.effectiveAt <= q.start || q.end < row.effectiveAt
    || q.knownAsOf < row.observedAt || row.observedAt < row.effectiveAt
  }

  /** A row is refused for one of these and nothing else, and an admitted row's symbol names its stream alone. */
  lemma RefusedIffUnusable(row: Row, q: Request)
    ensures !Admissible(row, q) <==> Unusable(row, q)
    ensures Admissible(row, q) ==> forall venue, asset ::
      ExpectedSymbol(venue, asset) == row.symbol <==> venue == row.venue && asset == row.asset
  {
    hide ExpectedSymbol;
    forall venue, asset
      ensures ExpectedSymbol(venue, asset) == ExpectedSymbol(row.venue, row.asset)
        <==> venue == row.venue && asset == row.asset
    {
      SymbolNamesStream(venue, asset, row.venue, row.asset);
    }
  }

  ghost predicate AllAdmissible(rows: set<Row>, q: Request) {
    forall row :: row in rows ==> Admissible(row, q)
  }

  predicate SameTerms(a: Row, b: Row) {
    a.rate == b.rate && a.intervalHours == b.intervalHours
  }

  /** Revisions of one settlement never disagree on its terms. */
  ghost predicate Consistent(rows: set<Row>) {
    forall a, b :: a in rows && b in rows && a.effectiveAt == b.effectiveAt ==> SameTerms(a, b)
  }

  function RowSet(rows: seq<Row>): set<Row> {
    set row | row in rows
  }

  function Hashes(rows: set<Row>): set<string> {
    set row | row in rows :: row.sourceHash
  }

  ghost predicate Ordered(ss: seq<Settlement>) {
    forall i, j :: 0 <= i < j < |ss| ==> ss[i].effectiveAt < ss[j].effectiveAt
  }

  /** s carries the terms all revisions agree on and the time the first of them was seen. */
  ghost predicate Settles(s: Settlement, rows: set<Row>) {
    && (exists row :: row in rows && row.effectiveAt == s.effectiveAt && row.observedAt == s.observedAt)
    && (forall row :: row in rows && row.effectiveAt == s.effectiveAt ==>
          row.rate == s.rate && row.intervalHours == s.intervalHours && s.observedAt <= row.observedAt)
  }

  ghost predicate Covered(row: Row, ss: seq<Settlement>) {
    exists s :: s in ss && s.effectiveAt == row.effectiveAt
  }

  /** One settlement for each effective time among the rows, in time order. */
  ghost predicate IsSettlementsOf(ss: seq<Settlement>, rows: set<Row>) {
    && Ordered(ss)
    && (forall s :: s in ss ==> Settles(s, rows))
    && (forall row :: row in rows ==> Covered(row, ss))
  }

  // ---------------------------------------------------------------- the rows alone decide

  lemma SettlesUnique(s: Settlement, t: Settlement, rows: set<Row>)
    requires Settles(s, rows) && Settles(t, rows) && s.effectiveAt == t.effectiveAt
    ensures s == t
  {
  }

  lemma SettlementShared(a: seq<Settlement>, b: seq<Settlement>, rows: set<Row>, s: Settlement)
    requires IsSettlementsOf(a, rows) && IsSettlementsOf(b, rows) && s in a
    ensures s in b
  {
    assert Settles(s, rows);
    var row :| row in rows && row.effectiveAt == s.effectiveAt;
    assert Covered(row, b);
    var t :| t in b && t.effectiveAt == row.effectiveAt;
    hide Covered, Ordered;
    SettlesUnique(s, t, rows);
  }

  /** The set of rows determines the settlements: neither their order nor repeats of a row matter. */
  lemma SettlementsUnique(a: seq<Settlement>, b: seq<Settlement>, rows: set<Row>)
    requires IsSettlementsOf(a, rows) && IsSettlementsOf(b, rows)
    ensures a == b
  {
    forall s ensures s in a <==> s in b {
      if s in a {
        SettlementShared(a, b, rows, s);
      }
      if s in b {
        SettlementShared(b, a, rows, s);
      }
    }
    OrderedByUnique(a, b, (s: Settlement) => s.effectiveAt);
  }

  lemma SettlesLater(s: Settlement, rows: set<Row>, original: Row, revision: Row)
    requires Settles(s, rows) && original in rows
    requires revision.effectiveAt == original.effectiveAt && SameTerms(revision, original)
    requires original.observedAt <= revision.observedAt
    ensures Settles(s, rows + {revision})
  {
    var first :| first in rows && first.effectiveAt == s.effectiveAt && first.observedAt == s.observedAt;
    assert first in rows + {revision};
  }

  /** A revision that repeats the terms and was seen no earlier changes nothing. */
  lemma LaterRevisionIgnored(ss: seq<Settlement>, rows: set<Row>, original: Row, revision: Row)
    requires IsSettlementsOf(ss, rows) && original in rows
    requires revision.effectiveAt == original.effectiveAt && SameTerms(revision, original)
    requires original.observedAt <= revision.observedAt
    ensures IsSettlementsOf(ss, rows + {revision})
  {
    hide Ordered, Settles;
    assert Covered(original, ss);
    forall s | s in ss ensures Settles(s, rows + {revision}) {
      SettlesLater(s, rows, original, revision);
    }
    forall row | row in rows + {revision} ensures Covered(row, ss) {
      if row !in rows {
        assert row == revision;
      }
    }
  }

  // ---------------------------------------------------------------- preparation

  /** Python's grouped.setdefault(time, []).append(row), and what .get(time, ()) finds. */
  function RowsAt(grouped: map<int, seq<Row>>, time: int): seq<Row> {
    if time in grouped then grouped[time] else []
  }

  /** The groups hold exactly these rows, each under its own time, and no group is empty. */
  ghost predicate GroupsRows(grouped: map<int, seq<Row>>, rows: set<Row>) {
    && (forall time :: time in grouped ==> grouped[time] != [])
    && (forall time, row :: row in RowsAt(grouped, time) <==> row in rows && row.effectiveAt == time)
  }

  lemma GroupAppend(grouped: map<int, seq<Row>>, rows: set<Row>, row: Row)
    requires GroupsRows(grouped, rows)
    ensures GroupsRows(grouped[row.effectiveAt := RowsAt(grouped, row.effectiveAt) + [row]], rows + {row})
  {
    var grouped' := grouped[row.effectiveAt := RowsAt(grouped, row.effectiveAt) + [row]];
    forall time, r ensures r in RowsAt(grouped', time) <==> r in rows + {row} && r.effectiveAt == time {
      assert r in RowsAt(grouped, time) <==> r in rows && r.effectiveAt == time;
    }
  }

  lemma RowSetAppend(rows: seq<Row>, n: nat)
    requires n < |rows|
    ensures RowSet(rows[..n + 1]) == RowSet(rows[..n]) + {rows[n]}
    ensures Hashes(RowSet(rows[..n + 1])) == Hashes(RowSet(rows[..n])) + {rows[n].sourceHash}
  {
    assert rows[..n + 1] == rows[..n] + [rows[n]];
    assert RowSet(rows[..n + 1]) == RowSet(rows[..n]) + {rows[n]};
  }

  lemma AdmissibleAppend(rows: seq<Row>, n: nat, q: Request)
    requires n < |rows| && AllAdmissible(RowSet(rows[..n]), q)
    ensures Admissible(rows[n], q) ==> AllAdmissible(RowSet(rows[..n + 1]), q)
    ensures !Admissible(rows[n], q) ==> !AllAdmissible(RowSet(rows), q)
  {
    RowSetAppend(rows, n);
    assert rows[n] in RowSet(rows);
  }

  /** Checks every row and groups them by effective time; None is the ValueError. */
  method GroupRows(rows: seq<Row>, q: Request)
    returns (r: Outcome<map<int, seq<Row>>>, hashes: set<string>)
    ensures r.Ok? <==> AllAdmissible(RowSet(rows), q)
    ensures r.Ok? ==> GroupsRows(r.value, RowSet(rows)) && hashes == Hashes(RowSet(rows))
  {
    var grouped: map<int, seq<Row>> := map[];
    hashes := {};
    GroupsNothing(q);
    hide AllAdmissible, GroupsRows, RowsAt, RowSet, Hashes, Admissible;
    for n := 0 to |rows|
      invariant AllAdmissible(RowSet(rows[..n]), q)
      invariant GroupsRows(grouped, RowSet(rows[..n])) && hashes == Hashes(RowSet(rows[..n]))
    {
      AdmissibleAppend(rows, n, q);
      if !Admissible(rows[n], q) {
        return ValueError, hashes;
      }
      RowSetAppend(rows, n);
      GroupAppend(grouped, RowSet(rows[..n]), rows[n]);
      grouped := grouped[rows[n].effectiveAt := RowsAt(grouped, rows[n].effectiveAt) + [rows[n]]];
      hashes := hashes + {rows[n].sourceHash};
    }
    assert rows[..|rows|] == rows;
    r := Ok(grouped);
  }

  lemma GroupsNothing(q: Request)
    ensures AllAdmissible(RowSet([]), q) && GroupsRows(map[], RowSet([])) && Hashes(RowSet([])) == {}
  {
  }

  lemma {:induction false} LeastExists(keys: set<int>)
    requires keys != {}
    ensures exists t :: t in keys && forall u :: u in keys ==> t <= u
  {
    assert exists u :: u in keys by {
      if forall u :: u !in keys {
        assert false;
      }
    }
    var t :| t in keys;
    if keys != {t} {
      var rest := keys - {t};
      LeastExists(rest);
      var least :| least in rest && forall u :: u in rest ==> least <= u;
      var m := if t < least then t else least;
      assert forall u :: u in keys ==> u == t || u in rest;
      assert m in keys && forall u :: u in keys ==> m <= u;
    }
  }

  method Least(keys: set<int>) returns (t: int)
    requires keys != {}
    ensures t in keys && forall u :: u in keys ==> t <= u
  {
    LeastExists(keys);
    t :| t in keys && forall u :: u in keys ==> t <= u;
  }

  function Earliest(revisions: seq<Row>): (t: int)
    requires revisions != []
    ensures exists row :: row in revisions && row.observedAt == t
    ensures forall row :: row in revisions ==> t <= row.observedAt
  {
    if |revisions| == 1 then
      assert revisions[0] in revisions;
      revisions[0].observedAt
    else
      var rest := Earliest(revisions[1..]);
      assert revisions == [revisions[0]] + revisions[1..];
      assert forall row :: row in revisions <==> row == revisions[0] || row in revisions[1..];
      if revisions[0].observedAt <= rest then revisions[0].observedAt else rest
  }

  /** The revisions of one time, folded; a second set of terms is the ValueError. */
  function Settle(time: int, revisions: seq<Row>): Outcome<Settlement>
    requires revisions != []
  {
    if forall row :: row in revisions ==> SameTerms(row, revisions[0]) then
      Ok(Settlement(time, Earliest(revisions), revisions[0].rate, revisions[0].intervalHours))
    else ValueError
  }

  lemma SettleMeaning(grouped: map<int, seq<Row>>, rows: set<Row>, time: int)
    requires GroupsRows(grouped, rows) && time in grouped
    ensures grouped[time] != []
    ensures Settle(time, grouped[time]).Ok? ==> Settles(Settle(time, grouped[time]).value, rows)
    ensures Settle(time, grouped[time]).ValueError? ==> !Consistent(rows)
  {
    var revisions := grouped[time];
    assert revisions == RowsAt(grouped, time);
    assert revisions[0] in revisions;
    hide RowsAt, Earliest;
    assert forall row :: row in revisions <==> row in rows && row.effectiveAt == time;
    if Settle(time, revisions).Ok? {
      var s := Settle(time, revisions).value;
      var row :| row in revisions && row.observedAt == s.observedAt;
    } else {
      var row :| row in revisions && !SameTerms(row, revisions[0]);
    }
  }

  /** The times before every pending one are settled. */
  ghost predicate SettledBefore(ss: seq<Settlement>, grouped: map<int, seq<Row>>, pending: set<int>, rows: set<Row>) {
    && Ordered(ss)
    && pending <= grouped.Keys
    && (forall s :: s in ss ==> Settles(s, rows) && forall t :: t in pending ==> s.effectiveAt < t)
    && (forall t :: t in grouped.Keys - pending ==> exists s :: s in ss && s.effectiveAt == t)
  }

  lemma SettleStep(ss: seq<Settlement>, grouped: map<int, seq<Row>>, pending: set<int>, rows: set<Row>,
                   t: int, s: Settlement)
    requires SettledBefore(ss, grouped, pending, rows)
    requires t in pending && forall u :: u in pending ==> t <= u
    requires s.effectiveAt == t && Settles(s, rows)
    ensures SettledBefore(ss + [s], grouped, pending - {t}, rows)
  {
    hide Settles;
    var ss' := ss + [s];
    assert s in ss';
    assert Ordered(ss') by {
      forall i, j | 0 <= i < j < |ss'| ensures ss'[i].effectiveAt < ss'[j].effectiveAt {
        assert ss[i] in ss;
      }
    }
    forall u | u in grouped.Keys - (pending - {t}) ensures exists x :: x in ss' && x.effectiveAt == u {
      if u != t {
        assert u in grouped.Keys - pending;
        var x :| x in ss && x.effectiveAt == u;
        assert x in ss';
      }
    }
  }

  lemma SettledAll(ss: seq<Settlement>, grouped: map<int, seq<Row>>, rows: set<Row>)
    requires GroupsRows(grouped, rows) && SettledBefore(ss, grouped, {}, rows)
    ensures IsSettlementsOf(ss, rows)
  {
    forall row | row in rows ensures Covered(row, ss) {
      assert row in RowsAt(grouped, row.effectiveAt);
      assert row.effectiveAt in grouped.Keys - {};
    }
  }

  /** Settled revisions agree at every time. */
  lemma SettledConsistent(ss: seq<Settlement>, rows: set<Row>)
    requires IsSettlementsOf(ss, rows)
    ensures Consistent(rows)
  {
    forall a, b | a in rows && b in rows && a.effectiveAt == b.effectiveAt ensures SameTerms(a, b) {
      assert Covered(a, ss);
      var s :| s in ss && s.effectiveAt == a.effectiveAt;
      assert Settles(s, rows);
    }
  }

  /** Folds the groups in time order. */
  method SettleGroups(grouped: map<int, seq<Row>>, ghost rows: set<Row>) returns (r: Outcome<seq<Settlement>>)
    requires GroupsRows(grouped, rows)
    ensures r.Ok? <==> Consistent(rows)
    ensures r.Ok? ==> IsSettlementsOf(r.value, rows)
  {
    var ss: seq<Settlement> := [];
    var pending := grouped.Keys;
    SettledNothing(grouped, rows);
    hide *;
    while pending != {}
      invariant pending <= grouped.Keys
      invariant SettledBefore(ss, grouped, pending, rows)
      decreases |pending|
    {
      var t := Least(pending);
      SettleMeaning(grouped, rows, t);
      var settled := Settle(t, grouped[t]);
      if settled.ValueError? {
        return ValueError;
      }
      SettleTime(t, grouped[t]);
      SettleStep(ss, grouped, pending, rows, t, settled.value);
      ss := ss + [settled.value];
      pending := pending - {t};
    }
    SettledAll(ss, grouped, rows);
    SettledConsistent(ss, rows);
    r := Ok(ss);
  }

  lemma SettledNothing(grouped: map<int, seq<Row>>, rows: set<Row>)
    ensures SettledBefore([], grouped, grouped.Keys, rows)
  {
  }

  lemma SettleTime(time: int, revisions: seq<Row>)
    requires revisions != []
    ensures Settle(time, revisions).Ok? ==> Settle(time, revisions).value.effectiveAt == time
  {
  }

  datatype Prepared = Prepared(settlements: seq<Settlement>, hashes: set<string>)

  /** A pure consequence of the set of rows: it succeeds on admissible, consistent rows alone. */
  method PrepareSettlements(rows: seq<Row>, q: Request) returns (r: Outcome<Prepared>)
    ensures r.Ok? <==> AllAdmissible(RowSet(rows), q) && Consistent(RowSet(rows))
    ensures r.Ok? ==> IsSettlementsOf(r.value.settlements, RowSet(rows)) && r.value.hashes == Hashes(RowSet(rows))
  {
    hide *;
    var grouped, hashes := GroupRows(rows, q);
    if grouped.ValueError? {
      return ValueError;
    }
    var settled := SettleGroups(grouped.value, RowSet(rows));
    if settled.ValueError? {
      return ValueError;
    }
    r := Ok(Prepared(settled.value, hashes));
  }

  /** Settlements of admissible rows lie in the half-open window. */
  lemma SettlementsInWindow(ss: seq<Settlement>, rows: set<Row>, q: Request)
    requires IsSettlementsOf(ss, rows) && AllAdmissible(rows, q)
    ensures forall s :: s in ss ==> q.start < s.effectiveAt <= q.end && s.effectiveAt <= s.observedAt <= q.knownAsOf
  {
    forall s | s in ss
      ensures q.start < s.effectiveAt <= q.end && s.effectiveAt <= s.observedAt <= q.knownAsOf
    {
      assert Settles(s, rows);
      var row :| row in rows && row.effectiveAt == s.effectiveAt && row.observedAt == s.observedAt;
      assert Admissible(row, q);
    }
  }
}
