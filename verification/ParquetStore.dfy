/**
 The partitioned writer (app/storage/parquet_store.py:81-157, app/storage/partitioning.py:157-174,
 app/storage/base.py:140-149): rows go to one temporary file per partition and run, and `Flush`
 publishes the temporary files by renaming them.

 `published` holds the files readers see and `writers` the open temporary files.  Which operation of
 the file system fails is a parameter of each method.
 */
module ParquetStore {
  import opened Collections
  import opened Options
  import opened SeenKeys

  /** A run id: the process and its flush number. */
  datatype RunId = RunId(process: nat, flush: nat)

  datatype Path = Path(partition: Partition, run: RunId)

  type Files = map<Path, seq<Event>>

  // ---------- Filing rows, one at a time ----------

  function RowsAt(files: Files, path: Path): seq<Event> {
    if path in files then files[path] else []
  }

  function FileAll(files: Files, events: seq<Event>, run: RunId): Files {
    if events == [] then files
    else
      var before, last := FileAll(files, events[..|events| - 1], run), events[|events| - 1];
      before[Path(last.partition, run) := RowsAt(before, Path(last.partition, run)) + [last]]
  }

  function Select(events: seq<Event>, partition: Partition): seq<Event> {
    if events == [] then []
    else
      var last := events[|events| - 1];
      Select(events[..|events| - 1], partition) + if last.partition == partition then [last] else []
  }

  function Partitions(events: seq<Event>): set<Partition> {
    set e | e in events :: e.partition
  }

  lemma SelectLast(events: seq<Event>, e: Event, partition: Partition)
    ensures Select(events + [e], partition)
            == Select(events, partition) + (if e.partition == partition then [e] else [])
    ensures partition in Partitions(events + [e]) <==> partition in Partitions(events) || partition == e.partition
  {
    assert (events + [e])[..|events|] == events;
    if partition in Partitions(events) {
      var x :| x in events && x.partition == partition;
      assert x in events + [e];
    }
    assert e in events + [e];
  }

  lemma {:induction false} FileAllRows(files: Files, events: seq<Event>, run: RunId, path: Path)
    ensures if path.run == run && path.partition in Partitions(events)
            then path in FileAll(files, events, run)
              && FileAll(files, events, run)[path] == RowsAt(files, path) + Select(events, path.partition)
            else Lookup(FileAll(files, events, run), path) == Lookup(files, path)
    decreases |events|
  {
    if events != [] {
      var before, last := events[..|events| - 1], events[|events| - 1];
      FileAllRows(files, before, run, path);
      SelectLast(before, last, path.partition);
      assert events == before + [last];
      if path.partition !in Partitions(before) { SelectNone(before, path.partition); }
    }
  }

  // ---------- Publishing ----------

  /**
   What goes wrong in publishing one file; `CloseBreaks` is an exception other than `OSError`, which ends the
   loop.
   */
  datatype Fault = CloseFails | UnlinkFails | ReplaceFails | CloseBreaks

  /** What readers see at a path after publishing `rows` there: an existing file is removed before the rename. */
  function Outcome(existing: Option<seq<Event>>, rows: seq<Event>, fault: Option<Fault>): Option<seq<Event>> {
    match fault
    case None => Some(rows)
    case Some(CloseFails) => existing
    case Some(CloseBreaks) => existing
    case Some(UnlinkFails) => if existing.Some? then existing else Some(rows)
    case Some(ReplaceFails) => None
  }

  /** Publishing failed at `path`. */
  predicate Failed(published: Files, faults: map<Path, Fault>, path: Path) {
    path in faults && (faults[path] == UnlinkFails ==> path in published)
  }

  /** `after` is what readers see when the files of `writers` in `paths` were published over `before`. */
  ghost predicate Publishes(before: Files, writers: Files, paths: set<Path>, faults: map<Path, Fault>, after: Files) {
    forall path: Path :: Lookup(after, path) ==
      if path in paths && path in writers then Outcome(Lookup(before, path), writers[path], Lookup(faults, path))
         else Lookup(before, path)
  }

  /** A failed write isOpen or extended only files of its own run. */
  ghost predicate OnlyRun(before: Files, after: Files, run: RunId) {
    && (forall path :: path in before ==> path in after)
    && (forall path :: path in after && path.run != run ==> path in before && after[path] == before[path])
  }

  /** The partition of each event. */
  function PartitionList(events: seq<Event>): seq<Partition> {
    seq(|events|, i requires 0 <= i < |events| => events[i].partition)
  }

  /** The files that events go to in one run, in the order of first appearance. */
  function PathsOf(events: seq<Event>, run: RunId): seq<Path> {
    seq(|events|, i requires 0 <= i < |events| => Path(events[i].partition, run))
  }

  /** The buckets of some events: each partition once, by first appearance, with its rows in the order of the events. */
  ghost predicate Grouped(events: seq<Event>, order: seq<Partition>, buckets: map<Partition, seq<Event>>) {
    && buckets.Keys == Partitions(events)
    && order == Merged([], PartitionList(events))
    && (forall p :: p in buckets <==> p in order)
    && (forall p :: p in buckets ==> buckets[p] == Select(events, p))
  }

  lemma NothingGrouped(events: seq<Event>)
    ensures Grouped(events[..0], [], map[])
  {
  }

  lemma GroupedStep(events: seq<Event>, e: Event, order: seq<Partition>, buckets: map<Partition, seq<Event>>)
    requires Grouped(events, order, buckets)
    ensures e.partition in buckets ==>
      Grouped(events + [e], order, buckets[e.partition := buckets[e.partition] + [e]])
    ensures e.partition !in buckets ==>
      Grouped(events + [e], order + [e.partition], buckets[e.partition := [e]])
  {
    hide Select, Partitions, Merged;
    assert PartitionList(events + [e]) == PartitionList(events) + [e.partition];
    MergedStep([], PartitionList(events), e.partition);
    var after := buckets[e.partition := (if e.partition in buckets then buckets[e.partition] else []) + [e]];
    PartitionsStep(events, e);
    forall p | p in after ensures after[p] == Select(events + [e], p) {
      SelectLast(events, e, p);
      if e.partition !in buckets { SelectNone(events, e.partition); }
    }
    assert [] + [e] == [e];
  }

  lemma PartitionsStep(events: seq<Event>, e: Event)
    ensures Partitions(events + [e]) == Partitions(events) + {e.partition}
  {
    forall p ensures p in Partitions(events + [e]) <==> p in Partitions(events) || p == e.partition {
      SelectLast(events, e, p);
    }
  }

  // ---------- The store ----------

  class Store {
    const batchSize: nat
    var writers: Files
    var published: Files
    var recordsWritten: nat
    var filesWritten: seq<Path>

    ghost predicate Valid()
      reads this
    {
      batchSize >= 1
    }

    constructor (batchSize: nat, published: Files)
      requires batchSize >= 1
      ensures Valid() && writers == map[] && this.published == published && recordsWritten == 0 && filesWritten == []
    {
      this.batchSize, writers, this.published, recordsWritten, filesWritten := batchSize, map[], published, 0, [];
    }

    /** Bucket a batch by partition, keeping the order of first appearance. */
    method GroupByPartition(events: seq<Event>) returns (order: seq<Partition>, buckets: map<Partition, seq<Event>>)
      ensures Grouped(events, order, buckets)
    {
      hide Grouped, Merged;
      order, buckets := [], map[];
      NothingGrouped(events);
      for i := 0 to |events|
        invariant Grouped(events[..i], order, buckets)
      {
        var e := events[i];
        GroupedStep(events[..i], e, order, buckets);
        assert events[..i + 1] == events[..i] + [e];
        if e.partition in buckets {
          buckets := buckets[e.partition := buckets[e.partition] + [e]];
        } else {
          order := order + [e.partition];
          buckets := buckets[e.partition := [e]];
        }
      }
      assert events[..|events|] == events;
    }

    /** Open the temporary file of a path if need be and add rows; a fault strikes before the file is open or after. */
    method Append(path: Path, rows: seq<Event>, fails: bool, isOpen: bool) returns (ok: bool)
      modifies this`writers
      ensures ok == !fails
      ensures ok ==> writers == old(writers)[path := RowsAt(old(writers), path) + rows]
      ensures !ok ==> writers == old(writers) || writers == old(writers)[path := RowsAt(old(writers), path)]
    {
      if path !in writers {
        if fails && !isOpen { return false; }
        writers := writers[path := []];
      }
      if fails { return false; }
      writers := writers[path := writers[path] + rows];
      return true;
    }

    /** Append the buckets of one batch; append number `failAt`, counted from `appends`, is the one that fails. */
    method WriteBatch(
        batch: seq<Event>, run: RunId, failAt: Option<nat>, appends: nat, isOpen: bool, written: seq<Path>)
      returns (ok: bool, next: nat, paths: seq<Path>)
      modifies this`writers
      ensures ok ==> writers == FileAll(old(writers), batch, run) && paths == Merged(written, PathsOf(batch, run))
      ensures !ok ==> failAt.Some? && OnlyRun(old(writers), writers, run)
    {
      hide FileAll, OnlyRun, Filed, Select, Merged, PartitionList, PathsOf, RowsAt;
      var order, buckets := GroupByPartition(batch);
      next, paths := appends, written;
      NothingFiled(writers, batch, run);
      NothingMerged(written, run);
      GroupedOrder(batch, order);
      assert order[..0] == [];
      for i := 0 to |order|
        invariant Filed(old(writers), writers, batch, order[..i], run)
        invariant paths == Merged(written, Under(order[..i], run))
      {
        var p := order[i];
        assert order[..i + 1] == order[..i] + [p];
        ghost var before := writers;
        var wrote := Append(Path(p, run), buckets[p], failAt == Some(next), isOpen);
        if !wrote {
          FiledOnlyRun(old(writers), before, batch, order[..i], run);
          OpenedOnlyRun(old(writers), before, writers, Path(p, run));
          return false, next, paths;
        }
        FiledStep(old(writers), before, batch, order[..i], p, run);
        UnderStep(written, order[..i], p, run);
        if Path(p, run) !in paths { paths := paths + [Path(p, run)]; }
        next := next + 1;
      }
      assert order[..|order|] == order;
      FiledIsFileAll(old(writers), writers, batch, order, run);
      MergedUnder(written, batch, run);
      return true, next, paths;
    }

    /**
     Write events in batches; `failAt` is the append that fails, if any.  The files written to are returned and
     noted.
     */
    method Write(events: seq<Event>, run: RunId, failAt: Option<nat>, isOpen: bool)
      returns (ok: bool, written: seq<Path>)
      requires Valid()
      modifies this`writers, this`recordsWritten, this`filesWritten
      ensures Valid()
      ensures ok ==> writers == FileAll(old(writers), events, run) && recordsWritten == old(recordsWritten) + |events|
      ensures ok ==> written == Merged([], PathsOf(events, run)) && filesWritten == Merged(old(filesWritten), written)
      ensures !ok ==> failAt.Some? && OnlyRun(old(writers), writers, run) && filesWritten == old(filesWritten)
    {
      hide FileAll, OnlyRun, Merged, PathsOf;
      var done, appends := 0, 0;
      written := [];
      NothingWritten(writers, events, run);
      while done < |events|
        invariant done <= |events|
        invariant writers == FileAll(old(writers), events[..done], run)
        invariant written == Merged([], PathsOf(events[..done], run))
        invariant recordsWritten == old(recordsWritten) + done && filesWritten == old(filesWritten)
      {
        var size := if |events| - done < batchSize then |events| - done else batchSize;
        var batch := events[done..done + size];
        ghost var mid := writers;
        var wrote: bool;
        wrote, appends, written := WriteBatch(batch, run, failAt, appends, isOpen, written);
        if !wrote {
          FileAllOnlyRun(old(writers), events[..done], run);
          OnlyRunTwice(old(writers), mid, writers, run);
          return false, written;
        }
        WrittenStep(old(writers), events[..done], batch, run);
        assert events[..done] + batch == events[..done + size];
        recordsWritten := recordsWritten + |batch|;
        done := done + size;
      }
      assert events[..|events|] == events;
      NoteFiles(written);
      return true, written;
    }

    /** Note the files that were not noted before. */
    method NoteFiles(written: seq<Path>)
      modifies this`filesWritten
      ensures filesWritten == Merged(old(filesWritten), written)
    {
      for i := 0 to |written|
        invariant filesWritten == Merged(old(filesWritten), written[..i])
      {
        assert written[..i + 1] == written[..i] + [written[i]];
        MergedStep(old(filesWritten), written[..i], written[i]);
        if written[i] !in filesWritten { filesWritten := filesWritten + [written[i]]; }
      }
      assert written[..|written|] == written;
    }

    /**
     Close every open file and publish it; `broke` says that an exception other than `OSError` ended the loop
     early.
     */
    method Flush(faults: map<Path, Fault>) returns (ok: bool, broke: bool)
      modifies this`writers, this`published
      ensures LeftOpen(old(writers), faults, broke, writers)
      ensures Publishes(old(published), old(writers), old(writers).Keys - writers.Keys, faults, published)
      ensures ok == NoneFailed(old(published), old(writers).Keys, faults)
    {
      hide Publishes, Outcome, NoneFailed, Failed, PublishesOne, PartOf, LeftOpen;
      ok, broke := true, false;
      NothingPublished(published, writers, faults);
      assert old(writers).Keys - writers.Keys == {};
      while writers != map[]
        invariant PartOf(writers, old(writers))
        invariant Publishes(old(published), old(writers), old(writers).Keys - writers.Keys, faults, published)
        invariant ok == NoneFailed(old(published), old(writers).Keys - writers.Keys, faults)
        decreases |writers|
      {
        var path :| path in writers;
        PartStep(writers, old(writers), path);
        ghost var mid, done := published, old(writers).Keys - writers.Keys;
        var closed := Publish(path, Lookup(faults, path));
        PublishesStep(old(published), old(writers), done, path, faults, mid, published);
        writers := writers - {path};
        assert old(writers).Keys - writers.Keys == done + {path};
        ok := ok && closed;
        if Lookup(faults, path) == Some(CloseBreaks) {
          BreakFails(old(published), old(writers), faults, path, writers);
          return false, true;
        }
      }
      assert old(writers).Keys - writers.Keys == old(writers).Keys;
      NoneLeft(old(writers), faults);
    }

    /** Close one file, make way for it and rename it. */
    method Publish(path: Path, fault: Option<Fault>) returns (ok: bool)
      requires path in writers
      modifies this`published
      ensures PublishesOne(old(published), writers[path], path, fault, published)
      ensures ok == (fault.None? || (fault == Some(UnlinkFails) && path !in old(published)))
    {
      if fault == Some(CloseFails) || fault == Some(CloseBreaks) { return false; }
      if path in published {
        if fault == Some(UnlinkFails) { return false; }
        published := published - {path};
      }
      if fault == Some(ReplaceFails) { return false; }
      published := published[path := writers[path]];
      return true;
    }
  }

  /** Publishing failed at none of these paths. */
  ghost predicate NoneFailed(published: Files, paths: set<Path>, faults: map<Path, Fault>) {
    forall path :: path in paths ==> !Failed(published, faults, path)
  }

  /** `rows` were published at `path`, unless a fault struck, and nothing else changed. */
  ghost predicate PublishesOne(before: Files, rows: seq<Event>, path: Path, fault: Option<Fault>, after: Files) {
    && Lookup(after, path) == Outcome(Lookup(before, path), rows, fault)
    && forall p :: p != path ==> Lookup(after, p) == Lookup(before, p)
  }

  ghost predicate PartOf(files: Files, all: Files) {
    forall path :: path in files ==> path in all && files[path] == all[path]
  }

  /** The files still open after a flush: none, unless closing a file raised an exception other than `OSError`. */
  ghost predicate LeftOpen(before: Files, faults: map<Path, Fault>, broke: bool, after: Files) {
    && PartOf(after, before) && (!broke ==> after == map[])
    && (broke ==> exists path :: path in before && path !in after && Lookup(faults, path) == Some(CloseBreaks))
  }

  lemma NothingPublished(files: Files, writers: Files, faults: map<Path, Fault>)
    ensures Publishes(files, writers, {}, faults, files) && NoneFailed(files, {}, faults) && PartOf(writers, writers)
  {
  }

  lemma PartStep(files: Files, all: Files, path: Path)
    requires PartOf(files, all) && path in files
    ensures path in all && files[path] == all[path] && PartOf(files - {path}, all)
  {
  }

  lemma NoneLeft(files: Files, faults: map<Path, Fault>)
    ensures LeftOpen(files, faults, false, map[])
  {
  }

  lemma PublishesStep(
      before: Files, writers: Files, paths: set<Path>, path: Path, faults: map<Path, Fault>, mid: Files, after: Files)
    requires Publishes(before, writers, paths, faults, mid) && path in writers && path !in paths
    requires PublishesOne(mid, writers[path], path, Lookup(faults, path), after)
    ensures Publishes(before, writers, paths + {path}, faults, after)
    ensures var fault := Lookup(faults, path);
            NoneFailed(before, paths + {path}, faults) ==
              (NoneFailed(before, paths, faults) && (fault.None? || (fault == Some(UnlinkFails) && path !in mid)))
  {
    hide Outcome;
    assert Lookup(mid, path) == Lookup(before, path);
  }

  lemma BreakFails(before: Files, writers: Files, faults: map<Path, Fault>, path: Path, left: Files)
    requires path in writers && path !in left && Lookup(faults, path) == Some(CloseBreaks) && PartOf(left, writers)
    ensures !NoneFailed(before, writers.Keys, faults) && LeftOpen(writers, faults, true, left)
  {
  }

  /** The buckets of `batch` of the partitions in `order` were added to `before`. */
  ghost predicate Filed(before: Files, after: Files, batch: seq<Event>, order: seq<Partition>, run: RunId) {
    forall path: Path :: FiledAt(before, after, batch, order, run, path)
  }

  ghost predicate FiledAt(
      before: Files, after: Files, batch: seq<Event>, order: seq<Partition>, run: RunId, path: Path)
  {
    if path.run == run && path.partition in order
    then path in after && after[path] == RowsAt(before, path) + Select(batch, path.partition)
    else Lookup(after, path) == Lookup(before, path)
  }

  lemma FiledStep(before: Files, mid: Files, batch: seq<Event>, order: seq<Partition>, p: Partition, run: RunId)
    requires Filed(before, mid, batch, order, run) && p !in order
    ensures Filed(before, mid[Path(p, run) := RowsAt(mid, Path(p, run)) + Select(batch, p)], batch, order + [p], run)
  {
    var after := mid[Path(p, run) := RowsAt(mid, Path(p, run)) + Select(batch, p)];
    forall path: Path ensures FiledAt(before, after, batch, order + [p], run, path) {
      assert FiledAt(before, mid, batch, order, run, path);
      if path == Path(p, run) { assert Lookup(mid, path) == Lookup(before, path); }
    }
  }

  lemma FiledOnlyRun(before: Files, mid: Files, batch: seq<Event>, order: seq<Partition>, run: RunId)
    requires Filed(before, mid, batch, order, run)
    ensures OnlyRun(before, mid, run)
  {
    forall path: Path ensures path in before ==> path in mid
                      ensures path in mid && path.run != run ==> path in before && mid[path] == before[path] {
      assert FiledAt(before, mid, batch, order, run, path);
    }
  }

  lemma FileAllOnlyRun(start: Files, events: seq<Event>, run: RunId)
    ensures OnlyRun(start, FileAll(start, events, run), run)
  {
    var after := FileAll(start, events, run);
    forall path: Path ensures path in start ==> path in after
                      ensures path.run != run ==> Lookup(after, path) == Lookup(start, path) {
      FileAllRows(start, events, run, path);
    }
    forall path: Path | path in after && path.run != run ensures path in start && after[path] == start[path] {
      assert Lookup(after, path) == Lookup(start, path);
    }
  }

  /** Filing a batch bucket by bucket gives the same files as filing its events one at a time. */
  lemma FiledIsFileAll(before: Files, after: Files, batch: seq<Event>, order: seq<Partition>, run: RunId)
    requires forall p :: p in order <==> p in Partitions(batch)
    requires Filed(before, after, batch, order, run)
    ensures after == FileAll(before, batch, run)
  {
    var expected := FileAll(before, batch, run);
    forall path: Path ensures path in after <==> path in expected
                      ensures path in after ==> after[path] == expected[path] {
      assert FiledAt(before, after, batch, order, run, path);
      FileAllRows(before, batch, run, path);
    }
    SameMap(after, expected);
  }

  lemma {:induction false} FileAllAppend(files: Files, a: seq<Event>, b: seq<Event>, run: RunId)
    ensures FileAll(files, a + b, run) == FileAll(FileAll(files, a, run), b, run)
    decreases |b|
  {
    if b == [] {
      assert a + b == a;
    } else {
      assert (a + b)[..|a + b| - 1] == a + b[..|b| - 1];
      FileAllAppend(files, a, b[..|b| - 1], run);
    }
  }

  lemma {:induction false} SelectNone(events: seq<Event>, partition: Partition)
    requires partition !in Partitions(events)
    ensures Select(events, partition) == []
    decreases |events|
  {
    if events != [] {
      assert events[|events| - 1].partition in Partitions(events);
      assert forall e :: e in events[..|events| - 1] ==> e in events;
      SelectNone(events[..|events| - 1], partition);
    }
  }

  // ---------- The files that are written to ----------

  /** The files of some partitions in one run. */
  function Under(order: seq<Partition>, run: RunId): seq<Path> {
    seq(|order|, i requires 0 <= i < |order| => Path(order[i], run))
  }

  lemma UnderStep(written: seq<Path>, order: seq<Partition>, p: Partition, run: RunId)
    ensures Merged(written, Under(order + [p], run))
         == if Path(p, run) in Merged(written, Under(order, run)) then Merged(written, Under(order, run))
            else Merged(written, Under(order, run)) + [Path(p, run)]
  {
    assert Under(order + [p], run) == Under(order, run) + [Path(p, run)];
    MergedStep(written, Under(order, run), Path(p, run));
  }

  lemma GroupedOrder(events: seq<Event>, order: seq<Partition>)
    requires order == Merged([], PartitionList(events))
    ensures Collections.Distinct(order)
  {
    MergedDistinct([], PartitionList(events));
  }

  lemma {:induction false} UnderMerged(order: seq<Partition>, run: RunId)
    ensures Under(Merged([], order), run) == Merged([], Under(order, run))
    decreases |order|
  {
    if order != [] {
      var before, last := order[..|order| - 1], order[|order| - 1];
      UnderMerged(before, run);
      UnderStep([], before, last, run);
      assert before + [last] == order;
      var merged := Merged([], before);
      if last in merged {
        var i :| 0 <= i < |merged| && merged[i] == last;
        assert Under(merged, run)[i] == Path(last, run);
      }
    }
  }

  /** The files of the partitions of a batch are the files of its events. */
  lemma MergedUnder(written: seq<Path>, batch: seq<Event>, run: RunId)
    ensures Merged(written, Under(Merged([], PartitionList(batch)), run)) == Merged(written, PathsOf(batch, run))
  {
    hide Merged;
    UnderMerged(PartitionList(batch), run);
    assert Under(PartitionList(batch), run) == PathsOf(batch, run);
    MergedOnce(written, PathsOf(batch, run));
  }

  lemma NothingMerged(written: seq<Path>, run: RunId)
    ensures Merged(written, Under([], run)) == written
  {
  }

  lemma NothingFiled(files: Files, batch: seq<Event>, run: RunId)
    ensures Filed(files, files, batch, [], run)
  {
  }

  lemma NothingWritten(files: Files, events: seq<Event>, run: RunId)
    ensures files == FileAll(files, events[..0], run) && [] == Merged([], PathsOf(events[..0], run))
  {
  }

  lemma WrittenStep(files: Files, before: seq<Event>, batch: seq<Event>, run: RunId)
    ensures FileAll(FileAll(files, before, run), batch, run) == FileAll(files, before + batch, run)
    ensures Merged(Merged([], PathsOf(before, run)), PathsOf(batch, run)) == Merged([], PathsOf(before + batch, run))
  {
    hide Merged, FileAll;
    FileAllAppend(files, before, batch, run);
    MergedInTwo([], PathsOf(before, run), PathsOf(batch, run));
    assert PathsOf(before + batch, run) == PathsOf(before, run) + PathsOf(batch, run);
  }

  lemma OpenedOnlyRun(start: Files, before: Files, after: Files, path: Path)
    requires OnlyRun(start, before, path.run)
    requires after == before || after == before[path := RowsAt(before, path)]
    ensures OnlyRun(start, after, path.run)
  {
  }

  lemma OnlyRunTwice(start: Files, mid: Files, after: Files, run: RunId)
    requires OnlyRun(start, mid, run) && OnlyRun(mid, after, run)
    ensures OnlyRun(start, after, run)
  {
  }
}
