/**
 From timestamped rows to a pruned scan, end to end (app/storage/partitioning.py:157-174,
 app/storage/parquet_store.py:81-98): the partition key of a row is computed from its timestamp, the store
 files rows by that key, each key names a directory, and pruning those directories loses nothing.
 */
module PartitionedRows {
  import opened Collections
  import opened Options
  import opened Calendar
  import opened Partitioning
  import S = SeenKeys
  import P = ParquetStore

  // ---------- From a timestamp to a directory ----------

  /** The key of the bucket of a timestamp: its values at the partition keys. */
  function KeyTuple(m: Moment, keys: seq<Key>): (r: seq<string>)
    requires Valid(m) && Supported(keys)
    ensures |r| == |keys|
  {
    if keys == [] then [] else KeyTuple(m, keys[..|keys| - 1]) + [Text(m, keys[|keys| - 1])]
  }

  /** The segments `name=value` that the writer makes of the keys and a bucket's values. */
  function Named(keys: seq<Key>, tuple: seq<string>): (r: seq<string>)
    requires |tuple| == |keys|
    ensures |r| == |keys|
  {
    if keys == [] then []
    else Named(keys[..|keys| - 1], tuple[..|keys| - 1]) + [Name(keys[|keys| - 1]) + tuple[|keys| - 1]]
  }

  function Directory(root: Path, keys: seq<Key>, tuple: seq<string>): Path
    requires |tuple| == |keys|
  {
    Path(root.parts + Named(keys, tuple))
  }

  /** The directory the writer makes for a row's bucket is the partition path of the row's timestamp. */
  lemma {:induction false} NamedIsSegments(m: Moment, keys: seq<Key>)
    requires Valid(m) && Supported(keys)
    ensures Named(keys, KeyTuple(m, keys)) == Segments(m, keys)
    decreases |keys|
  {
    hide Name, Text;
    if keys != [] {
      var before := keys[..|keys| - 1];
      NamedIsSegments(m, before);
      assert KeyTuple(m, keys)[..|keys| - 1] == KeyTuple(m, before);
    }
  }

  lemma {:induction false} NamedInjective(keys: seq<Key>, a: seq<string>, b: seq<string>)
    requires |a| == |keys| && |b| == |keys| && Named(keys, a) == Named(keys, b)
    ensures a == b
    decreases |keys|
  {
    hide Name;
    if keys != [] {
      var n := |keys| - 1;
      var x, y := Named(keys, a), Named(keys, b);
      assert x[..n] == Named(keys[..n], a[..n]) && y[..n] == Named(keys[..n], b[..n]);
      NamedInjective(keys[..n], a[..n], b[..n]);
      assert x[n] == Name(keys[n]) + a[n] && y[n] == Name(keys[n]) + b[n];
      SuffixSame(Name(keys[n]), a[n], b[n]);
      assert a == a[..n] + [a[n]] && b == b[..n] + [b[n]];
    }
  }

  lemma SuffixSame(prefix: string, a: string, b: string)
    requires prefix + a == prefix + b
    ensures a == b
  {
    assert a == (prefix + a)[|prefix|..] && b == (prefix + b)[|prefix|..];
  }

  /** Two rows share a directory exactly when they share a bucket. */
  lemma SameHome(root: Path, keys: seq<Key>, m: Moment, tuple: seq<string>)
    requires Valid(m) && Supported(keys) && |tuple| == |keys|
    ensures Home(root, m, keys) == Directory(root, keys, tuple) <==> KeyTuple(m, keys) == tuple
  {
    hide Named, Segments, KeyTuple;
    NamedIsSegments(m, keys);
    if Home(root, m, keys) == Directory(root, keys, tuple) {
      SameTail(root.parts, Segments(m, keys), Named(keys, tuple));
      NamedInjective(keys, KeyTuple(m, keys), tuple);
    }
  }

  lemma SameTail(prefix: seq<string>, a: seq<string>, b: seq<string>)
    requires prefix + a == prefix + b
    ensures a == b
  {
    assert a == (prefix + a)[|prefix|..] && b == (prefix + b)[|prefix|..];
  }

  // ---------- Rows as events of the store ----------

  predicate AllValid(rows: seq<Row>) {
    forall i :: 0 <= i < |rows| ==> Valid(rows[i].timestamp)
  }

  /** The event of a row: its place in the list, and the partition key computed from its timestamp. */
  function EventOf(row: Row, place: nat, keys: seq<Key>): S.Event
    requires Valid(row.timestamp) && Supported(keys)
  {
    S.Event(place, None, S.Partition(KeyTuple(row.timestamp, keys)))
  }

  function EventsOf(rows: seq<Row>, keys: seq<Key>): (r: seq<S.Event>)
    requires AllValid(rows) && Supported(keys)
    ensures |r| == |rows|
    ensures forall i :: 0 <= i < |r| ==> r[i] == EventOf(rows[i], i, keys)
  {
    if rows == [] then []
    else EventsOf(rows[..|rows| - 1], keys) + [EventOf(rows[|rows| - 1], |rows| - 1, keys)]
  }

  predicate PlacesIn(events: seq<S.Event>, rows: seq<Row>) {
    forall i :: 0 <= i < |events| ==> events[i].id < |rows|
  }

  /** The rows some events stand for. */
  function RowsOf(events: seq<S.Event>, rows: seq<Row>): seq<Row>
    requires PlacesIn(events, rows)
  {
    if events == [] then []
    else RowsOf(events[..|events| - 1], rows) + [rows[events[|events| - 1].id]]
  }

  /** The rows whose partition path is `path`, in order. */
  function RowsAt(rows: seq<Row>, path: Path, root: Path, keys: seq<Key>): (r: seq<Row>)
    requires AllValid(rows) && Supported(keys)
    ensures forall row :: row in r ==> Valid(row.timestamp) && Home(root, row.timestamp, keys) == path
  {
    if rows == [] then []
    else
      var last := rows[|rows| - 1];
      RowsAt(rows[..|rows| - 1], path, root, keys) + if Home(root, last.timestamp, keys) == path then [last] else []
  }

  /** The directories of some rows with what each holds. */
  function TableOf(rows: seq<Row>, root: Path, keys: seq<Key>): Table
    requires AllValid(rows) && Supported(keys)
  {
    map path | path in Homes(rows, root, keys) :: RowsAt(rows, path, root, keys)
  }

  function Homes(rows: seq<Row>, root: Path, keys: seq<Key>): set<Path>
    requires AllValid(rows) && Supported(keys)
  {
    if rows == [] then {} else Homes(rows[..|rows| - 1], root, keys) + {Home(root, rows[|rows| - 1].timestamp, keys)}
  }

  lemma {:induction false} SelectedRows(rows: seq<Row>, n: nat, root: Path, keys: seq<Key>, partition: S.Partition)
    requires AllValid(rows) && Supported(keys) && n <= |rows| && |partition.values| == |keys|
    ensures AllValid(rows[..n])
    ensures var chosen := P.Select(EventsOf(rows, keys)[..n], partition);
            PlacesIn(chosen, rows) && RowsOf(chosen, rows)
                == RowsAt(rows[..n], Directory(root, keys, partition.values), root, keys)
    decreases n
  {
    hide Home, Directory, KeyTuple, RowsAt, RowsOf, EventsOf;
    var events, path := EventsOf(rows, keys), Directory(root, keys, partition.values);
    if n == 0 {
      SelectedNoRows(rows, root, keys, path);
    } else {
      var last := rows[n - 1];
      SelectedRows(rows, n - 1, root, keys, partition);
      assert events[..n] == events[..n - 1] + [events[n - 1]] && rows[..n] == rows[..n - 1] + [last];
      P.SelectLast(events[..n - 1], events[n - 1], partition);
      SameHome(root, keys, last.timestamp, partition.values);
      var chosen := P.Select(events[..n - 1], partition);
      RowsAtStep(rows[..n - 1], last, path, root, keys);
      if events[n - 1].partition == partition {
        RowsOfStep(chosen, events[n - 1], rows);
      } else {
        assert chosen + [] == chosen;
      }
    }
  }

  lemma SelectedNoRows(rows: seq<Row>, root: Path, keys: seq<Key>, path: Path)
    requires Supported(keys)
    ensures PlacesIn([], rows) && RowsOf([], rows) == RowsAt(rows[..0], path, root, keys)
  {
  }

  lemma RowsAtStep(rows: seq<Row>, row: Row, path: Path, root: Path, keys: seq<Key>)
    requires AllValid(rows) && AllValid(rows + [row]) && Valid(row.timestamp) && Supported(keys)
    ensures RowsAt(rows + [row], path, root, keys)
         == if Home(root, row.timestamp, keys) == path
            then RowsAt(rows, path, root, keys) + [row] else RowsAt(rows, path, root, keys)
  {
    hide Home;
    assert (rows + [row])[..|rows|] == rows;
  }

  lemma RowsOfStep(events: seq<S.Event>, e: S.Event, rows: seq<Row>)
    requires PlacesIn(events, rows) && e.id < |rows|
    ensures PlacesIn(events + [e], rows) && RowsOf(events + [e], rows) == RowsOf(events, rows) + [rows[e.id]]
  {
    assert (events + [e])[..|events|] == events;
  }

  lemma {:induction false} HomeOfRow(rows: seq<Row>, i: nat, root: Path, keys: seq<Key>)
    requires AllValid(rows) && Supported(keys) && i < |rows|
    ensures Home(root, rows[i].timestamp, keys) in Homes(rows, root, keys)
    decreases |rows|
  {
    hide Home;
    if i < |rows| - 1 { HomeOfRow(rows[..|rows| - 1], i, root, keys); }
  }

  lemma {:induction false} RowOfHome(rows: seq<Row>, path: Path, root: Path, keys: seq<Key>) returns (i: nat)
    requires AllValid(rows) && Supported(keys) && path in Homes(rows, root, keys)
    ensures i < |rows| && Home(root, rows[i].timestamp, keys) == path && RowsAt(rows, path, root, keys) != []
    decreases |rows|
  {
    hide Home;
    if Home(root, rows[|rows| - 1].timestamp, keys) == path {
      i := |rows| - 1;
    } else {
      i := RowOfHome(rows[..|rows| - 1], path, root, keys);
    }
  }

  /** What the store files for a bucket is what its directory holds in the table. */
  predicate Shows(
      table: Table, files: P.Files, partition: S.Partition, run: P.RunId, rows: seq<Row>, root: Path, keys: seq<Key>)
    requires |partition.values| == |keys|
  {
    var file, directory := P.Path(partition, run), Directory(root, keys, partition.values);
    && (file in files <==> directory in table)
    && (file in files ==> PlacesIn(files[file], rows) && RowsOf(files[file], rows) == table[directory])
  }

  /**
   The files the store makes of the rows' events are the table: each bucket has a file exactly when its
   directory is in the table, and they hold the same rows in the same order.
   */
  lemma StoreFilesTheTable(rows: seq<Row>, root: Path, keys: seq<Key>, run: P.RunId, partition: S.Partition)
    requires AllValid(rows) && Supported(keys) && |partition.values| == |keys|
    ensures Shows(TableOf(rows, root, keys), P.FileAll(map[], EventsOf(rows, keys), run), partition, run, rows, root,
            keys)
  {
    hide Directory, RowsAt, RowsOf, EventsOf, Homes, P.FileAll, P.Partitions, P.Select;
    P.FileAllRows(map[], EventsOf(rows, keys), run, P.Path(partition, run));
    BucketHasDirectory(rows, root, keys, partition);
    WholeSelection(rows, root, keys, partition);
  }

  /** A bucket has rows exactly when its directory is the partition path of one. */
  lemma BucketHasDirectory(rows: seq<Row>, root: Path, keys: seq<Key>, partition: S.Partition)
    requires AllValid(rows) && Supported(keys) && |partition.values| == |keys|
    ensures partition in P.Partitions(EventsOf(rows, keys)) <==>
      Directory(root, keys, partition.values) in Homes(rows, root, keys)
  {
    hide Home, Directory, KeyTuple, EventsOf, Homes;
    var events, directory := EventsOf(rows, keys), Directory(root, keys, partition.values);
    if partition in P.Partitions(events) {
      var i := EventIn(events, partition);
      SameHome(root, keys, rows[i].timestamp, partition.values);
      HomeOfRow(rows, i, root, keys);
    }
    if directory in Homes(rows, root, keys) {
      var i := RowOfHome(rows, directory, root, keys);
      SameHome(root, keys, rows[i].timestamp, partition.values);
      assert events[i] in events && events[i].partition == partition;
    }
  }

  lemma EventIn(events: seq<S.Event>, partition: S.Partition) returns (i: nat)
    requires partition in P.Partitions(events)
    ensures i < |events| && events[i].partition == partition
  {
    var e :| e in events && e.partition == partition;
    i :| i < |events| && events[i] == e;
  }

  lemma WholeSelection(rows: seq<Row>, root: Path, keys: seq<Key>, partition: S.Partition)
    requires AllValid(rows) && Supported(keys) && |partition.values| == |keys|
    ensures var chosen := [] + P.Select(EventsOf(rows, keys), partition);
            PlacesIn(chosen, rows) && RowsOf(chosen, rows)
                == RowsAt(rows, Directory(root, keys, partition.values), root, keys)
  {
    hide Directory, RowsAt, RowsOf, EventsOf, P.Select;
    var events := EventsOf(rows, keys);
    SelectedRows(rows, |rows|, root, keys, partition);
    assert events[..|rows|] == events && rows[..|rows|] == rows;
    assert [] + P.Select(events, partition) == P.Select(events, partition);
  }

  /** The table is well filed, by construction and not by assumption. */
  lemma TableIsWellFiled(rows: seq<Row>, root: Path, keys: seq<Key>)
    requires AllValid(rows) && Prefix(keys)
    ensures WellFiled(TableOf(rows, root, keys), root, keys)
  {
    hide Home, Values;
    var table := TableOf(rows, root, keys);
    forall path | path in table ensures table[path] != [] && AtHome(table[path], path, root, keys) {
      var _ := RowOfHome(rows, path, root, keys);
    }
  }

  // ---------- The pruned scan finds exactly the rows in range ----------

  /** What the listed directories hold of the first rows. */
  function Found(
      rows: seq<Row>, listing: seq<Path>, root: Path, keys: seq<Key>, start: Option<Moment>,
      end: Option<Moment>): multiset<Row>
    requires AllValid(rows) && Supported(keys)
  {
    if listing == [] then multiset{}
    else
      var last := multiset(Matching(RowsAt(rows, listing[|listing| - 1], root, keys), start, end));
      Found(rows, listing[..|listing| - 1], root, keys, start, end) + last
  }

  lemma MatchingStep(rows: seq<Row>, row: Row, start: Option<Moment>, end: Option<Moment>)
    ensures multiset(Matching(rows + [row], start, end))
         == multiset(Matching(rows, start, end)) + if InRange(row, start, end) then multiset{row} else multiset{}
  {
    hide InRange;
    assert (rows + [row])[..|rows|] == rows;
  }

  /** A row more is found exactly once. */
  lemma {:induction false} FoundStep(
      rows: seq<Row>, row: Row, listing: seq<Path>, root: Path, keys: seq<Key>, start: Option<Moment>,
      end: Option<Moment>)
    requires AllValid(rows + [row]) && AllValid(rows) && Valid(row.timestamp) && Supported(keys) && Distinct(listing)
    ensures Found(rows + [row], listing, root, keys, start, end)
         == Found(rows, listing, root, keys, start, end)
            + if InRange(row, start, end) && Home(root, row.timestamp, keys) in listing then multiset{row}
                else multiset{}
    decreases |listing|
  {
    hide Home, Matching, InRange, RowsAt, Found, Distinct;
    if listing == [] {
      FoundNowhere(rows, root, keys, start, end);
      FoundNowhere(rows + [row], root, keys, start, end);
    } else {
      var before, last := listing[..|listing| - 1], listing[|listing| - 1];
      LastIsNew(listing);
      FoundStep(rows, row, before, root, keys, start, end);
      RowsAtStep(rows, row, last, root, keys);
      MatchingStep(RowsAt(rows, last, root, keys), row, start, end);
      FoundNext(rows, listing, root, keys, start, end);
      FoundNext(rows + [row], listing, root, keys, start, end);
    }
  }

  lemma LastIsNew(listing: seq<Path>)
    requires Distinct(listing) && listing != []
    ensures var before, last := listing[..|listing| - 1], listing[|listing| - 1];
            Distinct(before) && last !in before && forall path :: path in listing <==> path in before || path == last
  {
    assert listing == listing[..|listing| - 1] + [listing[|listing| - 1]];
  }

  lemma FoundNowhere(rows: seq<Row>, root: Path, keys: seq<Key>, start: Option<Moment>, end: Option<Moment>)
    requires AllValid(rows) && Supported(keys)
    ensures Found(rows, [], root, keys, start, end) == multiset{}
  {
  }

  lemma FoundNext(
      rows: seq<Row>, listing: seq<Path>, root: Path, keys: seq<Key>, start: Option<Moment>, end: Option<Moment>)
    requires AllValid(rows) && Supported(keys) && listing != []
    ensures Found(rows, listing, root, keys, start, end)
         == Found(rows, listing[..|listing| - 1], root, keys, start, end)
            + multiset(Matching(RowsAt(rows, listing[|listing| - 1], root, keys), start, end))
  {
    hide RowsAt, Matching;
  }

  lemma {:induction false} FoundInAll(
      rows: seq<Row>, listing: seq<Path>, root: Path, keys: seq<Key>, start: Option<Moment>, end: Option<Moment>)
    requires AllValid(rows) && Supported(keys) && Distinct(listing)
    requires forall path :: path in Homes(rows, root, keys) ==> path in listing
    ensures Found(rows, listing, root, keys, start, end) == multiset(Matching(rows, start, end))
    decreases |rows|
  {
    hide Home, InRange, Distinct, Found;
    if rows == [] {
      FoundInNone(listing, root, keys, start, end);
    } else {
      var before, last := rows[..|rows| - 1], rows[|rows| - 1];
      assert rows == before + [last];
      FoundInAll(before, listing, root, keys, start, end);
      FoundStep(before, last, listing, root, keys, start, end);
      MatchingStep(before, last, start, end);
    }
  }

  lemma {:induction false} FoundInNone(
      listing: seq<Path>, root: Path, keys: seq<Key>, start: Option<Moment>, end: Option<Moment>)
    requires Supported(keys)
    ensures Found([], listing, root, keys, start, end) == multiset{}
    decreases |listing|
  {
    if listing != [] { FoundInNone(listing[..|listing| - 1], root, keys, start, end); }
  }

  lemma {:induction false} ScanFinds(
      rows: seq<Row>, listing: seq<Path>, root: Path, keys: seq<Key>, start: Option<Moment>, end: Option<Moment>)
    requires AllValid(rows) && Supported(keys) && forall path :: path in listing ==> path in Homes(rows, root, keys)
    ensures multiset(Scan(TableOf(rows, root, keys), listing, start, end))
            == Found(rows, listing, root, keys, start, end)
    decreases |listing|
  {
    hide Home, Matching, RowsAt, Homes;
    if listing != [] {
      var before, last := listing[..|listing| - 1], listing[|listing| - 1];
      assert forall path :: path in before ==> path in listing;
      assert last in listing;
      ScanFinds(rows, before, root, keys, start, end);
    }
  }

  /** A row is matched as often as it occurs, when its instant is in range. */
  lemma {:induction false} MatchingCount(rows: seq<Row>, start: Option<Moment>, end: Option<Moment>, row: Row)
    ensures multiset(Matching(rows, start, end))[row]
         == if && (start.Some? ==> Instant(start.value) <= Instant(row.timestamp))
               && (end.Some? ==> Instant(row.timestamp) <= Instant(end.value))
            then multiset(rows)[row] else 0
    decreases |rows|
  {
    hide Instant;
    if rows != [] {
      var before, last := rows[..|rows| - 1], rows[|rows| - 1];
      assert rows == before + [last];
      MatchingCount(before, start, end, row);
      MatchingStep(before, last, start, end);
    }
  }

  /**
   Whatever rows are written under a prefix of year, month, day and hour, and whatever range is asked
   for, pruning the directories they were filed in and scanning what is left returns exactly the rows of
   the range, each as often as it was written.
   */
  lemma PrunedScanIsExact(
      rows: seq<Row>, root: Path, keys: seq<Key>, listing: seq<Path>, start: Option<Moment>, end: Option<Moment>)
    requires AllValid(rows) && PlainRoot(root) && Prefix(keys)
    requires Distinct(listing) && (forall path :: path in listing <==> path in Homes(rows, root, keys))
    requires !AnyStuck(listing, start, end)
    ensures var table := TableOf(rows, root, keys);
            && (forall path :: path in Kept(listing, start, end) ==> path in table)
            && multiset(Scan(table, Kept(listing, start, end), start, end)) == multiset(Matching(rows, start, end))
            && (forall row :: multiset(Scan(table, Kept(listing, start, end), start, end))[row] ==
                 if && (start.Some? ==> Instant(start.value) <= Instant(row.timestamp))
                    && (end.Some? ==> Instant(row.timestamp) <= Instant(end.value))
                 then multiset(rows)[row] else 0)
  {
    hide Home, Matching, RowsAt, Homes, Kept, Found, WellFiled, AnyStuck, PlainRoot;
    var table := TableOf(rows, root, keys);
    TableIsWellFiled(rows, root, keys);
    PruningHidesNothing(table, root, keys, listing, start, end);
    ScanFinds(rows, listing, root, keys, start, end);
    FoundInAll(rows, listing, root, keys, start, end);
    hide Scan, TableOf, Instant;
    forall row: Row
      ensures multiset(Matching(rows, start, end))[row]
           == if && (start.Some? ==> Instant(start.value) <= Instant(row.timestamp))
                 && (end.Some? ==> Instant(row.timestamp) <= Instant(end.value))
              then multiset(rows)[row] else 0
    {
      MatchingCount(rows, start, end, row);
    }
  }
}
