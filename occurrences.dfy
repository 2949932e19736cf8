/** The record ingestor: the loop of `process_json_files` that walks the directory, keeps
    the files whose name ends in "clean.json", and appends one (date, identifier) pair per
    distinct identifier of every record to `results`. Reading and decoding the files is
    outside the model: a directory entry arrives as its name and its decoded content. */
module Occurrences {
  import opened Wrappers
  import opened Fields
  import opened CveScanner
  import opened Dates

  /** An element of a decoded file: an object with its "message" and "timestamp"
      fields, or any other JSON value. */
  datatype Item = Object(message: Field, timestamp: Field) | NotObject

  /** A file's content: it could not be opened or parsed, it parsed to something
      other than a list, or it is a list. */
  datatype Content = Unreadable | NotAList | Items(items: seq<Item>)

  datatype DirEntry = DirEntry(name: string, content: Content)

  /** One element of `results`. */
  datatype Occurrence = Occurrence(date: string, cve: string)

  /** What one record contributes: its date and the set `extract_cve` found in its message. */
  datatype Batch = Batch(date: string, cves: set<string>)

  /** `filename.endswith("clean.json")`. */
  predicate IsCleanFile(name: string) {
    |name| >= 10 && name[|name| - 10..] == "clean.json"
  }

  /** Extracting the identifiers of this item raises a TypeError (a truthy non-string message). */
  predicate Raises(item: Item) {
    item.Object? && ExtractCve(item.message).None?
  }

  /** The batches of a list of items, in order; a TypeError ends the file there, through
      the `except` around it, and the later items are never looked at. */
  function ItemBatches(items: seq<Item>): seq<Batch> {
    if items == [] then []
    else
      match items[0]
      case NotObject => ItemBatches(items[1..])
      case Object(message, timestamp) =>
        match ExtractCve(message)
        case None => []
        case Some(cves) => [Batch(ExtractDate(timestamp), cves)] + ItemBatches(items[1..])
  }

  /** A clean file that decoded to a list. */
  predicate IsProcessed(f: DirEntry) {
    IsCleanFile(f.name) && f.content.Items?
  }

  /** The batches of one directory entry: none unless it is a clean file holding a list. */
  function FileBatches(f: DirEntry): seq<Batch> {
    if IsProcessed(f) then ItemBatches(f.content.items) else []
  }

  /** The batches of the first j directory entries, file after file in listing order. */
  function BatchesUpTo(files: seq<DirEntry>, j: nat): seq<Batch>
    requires j <= |files|
  {
    if j == 0 then [] else BatchesUpTo(files, j - 1) + FileBatches(files[j - 1])
  }

  /** The batches of a whole directory. */
  function DirBatches(files: seq<DirEntry>): seq<Batch> {
    BatchesUpTo(files, |files|)
  }

  function Cves(block: seq<Occurrence>): (cs: seq<string>)
    ensures |cs| == |block|
  {
    if block == [] then [] else [block[0].cve] + Cves(block[1..])
  }

  /** block lists every identifier of the batch exactly once, each with the batch's date,
      in some order (Python iterates a set in an order it does not promise). */
  predicate Enumerates(block: seq<Occurrence>, b: Batch)
    decreases |block|
  {
    if block == [] then b.cves == {}
    else
      var last := block[|block| - 1];
      && last.date == b.date && last.cve in b.cves
      && Enumerates(block[..|block| - 1], Batch(b.date, b.cves - {last.cve}))
  }

  /** results is the concatenation of one enumeration per batch, in the order of the batches. */
  predicate EnumeratesAll(results: seq<Occurrence>, bs: seq<Batch>)
    decreases |bs|
  {
    if bs == [] then results == []
    else
      var n := |bs[0].cves|;
      n <= |results| && Enumerates(results[..n], bs[0]) && EnumeratesAll(results[n..], bs[1..])
  }

  /** How many batches hold identifier o.cve under date o.date. */
  function Count(bs: seq<Batch>, o: Occurrence): nat {
    if bs == [] then 0
    else (if bs[0].date == o.date && o.cve in bs[0].cves then 1 else 0) + Count(bs[1..], o)
  }

  /** One record's pairs: the identifiers of the set, each once, in whatever order the set
      yields them. */
  method EnumerateSet(date: string, cves: set<string>) returns (block: seq<Occurrence>)
    ensures Enumerates(block, Batch(date, cves))
  {
    block := [];
    var remaining := cves;
    while remaining != {}
      invariant remaining <= cves
      invariant Enumerates(block, Batch(date, cves - remaining))
      decreases |remaining|
    {
      var c :| c in remaining;
      ghost var before := block;
      block := block + [Occurrence(date, c)];
      assert block[..|block| - 1] == before;
      assert (cves - (remaining - {c})) - {c} == cves - remaining;
      remaining := remaining - {c};
    }
    assert cves - remaining == cves;
  }

  /** The inner loop of `process_json_files` over the items of one clean file, giving the
      pairs it appends to `results`. A TypeError leaves the loop; the pairs of the earlier
      items stay appended. */
  method ItemOccurrences(items: seq<Item>) returns (appended: seq<Occurrence>)
    ensures EnumeratesAll(appended, ItemBatches(items))
  {
    appended := [];
    ghost var done: seq<Batch> := [];
    var k := 0;
    while k < |items|
      invariant 0 <= k <= |items|
      invariant ItemBatches(items) == done + ItemBatches(items[k..])
      invariant EnumeratesAll(appended, done)
    {
      ItemStep(items, k, done);
      var item := items[k];
      if item.Object? {
        var found := ExtractCve(item.message);
        if found.None? {
          break;
        }
        var b := Batch(ExtractDate(item.timestamp), found.value);
        var block := EnumerateSet(b.date, b.cves);
        EnumeratesOne(block, b);
        EnumeratesConcat(appended, done, block, [b]);
        appended := appended + block;
        done := done + [b];
      }
      k := k + 1;
    }
    ItemsDone(items, k, done);
  }

  /** One item of the loop: a non-dictionary adds no batch, an item that raises ends the
      batches, any other adds the batch of its message and timestamp. */
  lemma ItemStep(items: seq<Item>, k: nat, done: seq<Batch>)
    requires k < |items| && ItemBatches(items) == done + ItemBatches(items[k..])
    ensures !items[k].Object? ==> ItemBatches(items) == done + ItemBatches(items[k + 1..])
    ensures Raises(items[k]) ==> ItemBatches(items) == done
    ensures items[k].Object? && !Raises(items[k]) ==>
              ItemBatches(items)
                == done + [Batch(ExtractDate(items[k].timestamp), ExtractCve(items[k].message).value)]
                   + ItemBatches(items[k + 1..])
  {
    assert items[k..][0] == items[k];
    assert items[k..][1..] == items[k + 1..];
    assert done + [] == done;
  }

  lemma ItemsDone(items: seq<Item>, k: nat, done: seq<Batch>)
    requires k <= |items| && ItemBatches(items) == done + ItemBatches(items[k..])
    requires k < |items| ==> ItemBatches(items) == done
    ensures ItemBatches(items) == done
  {
    if k == |items| {
      assert items[k..] == [] && done + [] == done;
    }
  }

  /** The outer loop of `process_json_files` over the directory listing. */
  method CollectOccurrences(files: seq<DirEntry>) returns (results: seq<Occurrence>)
    ensures EnumeratesAll(results, DirBatches(files))
  {
    results := [];
    var j := 0;
    while j < |files|
      invariant 0 <= j <= |files|
      invariant EnumeratesAll(results, BatchesUpTo(files, j))
    {
      var f := files[j];
      if IsCleanFile(f.name) && f.content.Items? {
        var appended := ItemOccurrences(f.content.items);
        ReadFile(files, j, results, appended);
        results := results + appended;
      } else {
        SkipFile(files, j, results);
      }
      j := j + 1;
    }
  }

  /** A clean file holding a list: its occurrences follow those of the earlier entries. */
  lemma ReadFile(files: seq<DirEntry>, j: nat, results: seq<Occurrence>, appended: seq<Occurrence>)
    requires j < |files| && IsProcessed(files[j])
    requires EnumeratesAll(results, BatchesUpTo(files, j))
    requires EnumeratesAll(appended, ItemBatches(files[j].content.items))
    ensures EnumeratesAll(results + appended, BatchesUpTo(files, j + 1))
  {
    EnumeratesConcat(results, BatchesUpTo(files, j), appended, FileBatches(files[j]));
  }

  /** Any other entry has no batches and adds no occurrence. */
  lemma SkipFile(files: seq<DirEntry>, j: nat, results: seq<Occurrence>)
    requires j < |files| && !IsProcessed(files[j])
    requires EnumeratesAll(results, BatchesUpTo(files, j))
    ensures EnumeratesAll(results, BatchesUpTo(files, j + 1))
  {
    assert BatchesUpTo(files, j + 1) == BatchesUpTo(files, j) + [];
    assert BatchesUpTo(files, j) + [] == BatchesUpTo(files, j);
  }

  lemma {:induction false} EnumeratesLength(block: seq<Occurrence>, b: Batch)
    requires Enumerates(block, b)
    ensures |block| == |b.cves|
    decreases |block|
  {
    if block != [] {
      var last := block[|block| - 1];
      EnumeratesLength(block[..|block| - 1], Batch(b.date, b.cves - {last.cve}));
    }
  }

  lemma EnumeratesOne(block: seq<Occurrence>, b: Batch)
    requires Enumerates(block, b)
    ensures EnumeratesAll(block, [b])
  {
    EnumeratesLength(block, b);
    assert block[..|b.cves|] == block;
  }

  /** A block for one batch, followed by enumerations of further batches. */
  lemma EnumeratesCons(block: seq<Occurrence>, b: Batch, rest: seq<Occurrence>, bs: seq<Batch>)
    requires |block| == |b.cves| && Enumerates(block, b) && EnumeratesAll(rest, bs)
    ensures EnumeratesAll(block + rest, [b] + bs)
  {
    assert (block + rest)[..|b.cves|] == block;
    assert (block + rest)[|b.cves|..] == rest;
    assert ([b] + bs)[0] == b && ([b] + bs)[1..] == bs;
  }

  lemma {:induction false} EnumeratesConcat(r1: seq<Occurrence>, b1: seq<Batch>, r2: seq<Occurrence>, b2: seq<Batch>)
    requires EnumeratesAll(r1, b1) && EnumeratesAll(r2, b2)
    ensures EnumeratesAll(r1 + r2, b1 + b2)
    decreases |b1|
  {
    if b1 == [] {
      assert r1 + r2 == r2 && b1 + b2 == b2;
    } else {
      var n := |b1[0].cves|;
      var head, tail := r1[..n], r1[n..];
      EnumeratesConcat(tail, b1[1..], r2, b2);
      EnumeratesCons(head, b1[0], tail + r2, b1[1..] + b2);
      assert head + (tail + r2) == r1 + r2;
      assert [b1[0]] + (b1[1..] + b2) == b1 + b2;
    }
  }

  /** A block holds each pair of its batch once and nothing else. */
  lemma {:induction false} BlockCount(block: seq<Occurrence>, b: Batch, o: Occurrence)
    requires Enumerates(block, b)
    ensures multiset(block)[o] == if b.date == o.date && o.cve in b.cves then 1 else 0
    decreases |block|
  {
    if block != [] {
      var init, last := block[..|block| - 1], block[|block| - 1];
      BlockCount(init, Batch(b.date, b.cves - {last.cve}), o);
      assert block == init + [last];
    }
  }

  /** Each pair occurs in the collected results as often as there are records with that date
      whose message holds that identifier: one pair per distinct identifier per record, and
      nothing else. */
  lemma {:induction false} EnumeratesCount(results: seq<Occurrence>, bs: seq<Batch>, o: Occurrence)
    requires EnumeratesAll(results, bs)
    ensures multiset(results)[o] == Count(bs, o)
    decreases |bs|
  {
    if bs != [] {
      var n := |bs[0].cves|;
      EnumeratesCount(results[n..], bs[1..], o);
      BlockCount(results[..n], bs[0], o);
      assert results == results[..n] + results[n..];
    }
  }

  lemma {:induction false} CountPositive(bs: seq<Batch>, o: Occurrence)
    ensures Count(bs, o) > 0 <==> exists b :: b in bs && b.date == o.date && o.cve in b.cves
  {
    if bs != [] {
      CountPositive(bs[1..], o);
      if exists b :: b in bs && b.date == o.date && o.cve in b.cves {
        var b :| b in bs && b.date == o.date && o.cve in b.cves;
        if b != bs[0] {
          assert b in bs[1..];
        }
      }
    }
  }

  /** Item k of the list is processed: no earlier item raised. */
  predicate Reached(items: seq<Item>, k: nat) {
    k < |items| && forall i :: 0 <= i < k ==> !Raises(items[i])
  }

  /** b is the batch of item k. */
  predicate BatchOfItem(items: seq<Item>, k: nat, b: Batch)
    requires k < |items|
  {
    items[k].Object? && ExtractCve(items[k].message) == Some(b.cves)
    && b.date == ExtractDate(items[k].timestamp)
  }

  /** Past an item that does not raise, the batches go on with those of the rest. */
  lemma ItemBatchesUnfold(items: seq<Item>)
    requires items != [] && !Raises(items[0])
    ensures ItemBatches(items) == (if items[0].Object?
                                   then [Batch(ExtractDate(items[0].timestamp), ExtractCve(items[0].message).value)]
                                   else []) + ItemBatches(items[1..])
  {
  }

  /** The batches of a list of items are those of the objects reached before a TypeError. */
  lemma {:induction false} ItemBatchesSource(items: seq<Item>, b: Batch)
    ensures b in ItemBatches(items) <==> exists k: nat :: Reached(items, k) && BatchOfItem(items, k, b)
  {
    if items != [] {
      var tail := items[1..];
      ItemBatchesSource(tail, b);
      if Raises(items[0]) {
        assert ItemBatches(items) == [];
        forall k: nat ensures !(Reached(items, k) && BatchOfItem(items, k, b)) {
          if k > 0 && k < |items| {
            assert !(Reached(items, k)) by { assert Raises(items[0]); }
          }
        }
      } else {
        ItemBatchesUnfold(items);
        if items[0].Object? && b == Batch(ExtractDate(items[0].timestamp), ExtractCve(items[0].message).value) {
          assert Reached(items, 0) && BatchOfItem(items, 0, b);
        }
        if exists k: nat :: Reached(tail, k) && BatchOfItem(tail, k, b) {
          var k: nat :| Reached(tail, k) && BatchOfItem(tail, k, b);
          assert tail[k] == items[k + 1];
          assert forall i :: 0 <= i < k + 1 ==> !Raises(items[i]) by {
            forall i | 0 <= i < k + 1 ensures !Raises(items[i]) {
              if i > 0 {
                assert items[i] == tail[i - 1];
              }
            }
          }
          assert Reached(items, k + 1) && BatchOfItem(items, k + 1, b);
        }
        if exists k: nat :: Reached(items, k) && BatchOfItem(items, k, b) {
          var k: nat :| Reached(items, k) && BatchOfItem(items, k, b);
          if k == 0 {
            assert b == Batch(ExtractDate(items[0].timestamp), ExtractCve(items[0].message).value);
          } else {
            assert tail[k - 1] == items[k];
            assert forall i :: 0 <= i < k - 1 ==> !Raises(tail[i]) by {
              forall i | 0 <= i < k - 1 ensures !Raises(tail[i]) {
                assert tail[i] == items[i + 1];
              }
            }
            assert Reached(tail, k - 1) && BatchOfItem(tail, k - 1, b);
          }
        }
      }
    }
  }

  /** A batch is among those of the first j entries exactly when one of them is a processed
      file whose items yield it. */
  lemma {:induction false} BatchesUpToSource(files: seq<DirEntry>, j: nat, b: Batch)
    requires j <= |files|
    ensures b in BatchesUpTo(files, j)
            <==> exists i :: 0 <= i < j && IsProcessed(files[i]) && b in ItemBatches(files[i].content.items)
  {
    if j > 0 {
      BatchesUpToSource(files, j - 1, b);
      var f := files[j - 1];
      assert b in BatchesUpTo(files, j) <==> b in BatchesUpTo(files, j - 1) || b in FileBatches(f);
      if b in BatchesUpTo(files, j - 1) {
        var i :| 0 <= i < j - 1 && IsProcessed(files[i]) && b in ItemBatches(files[i].content.items);
        assert 0 <= i < j;
      } else if b in FileBatches(f) {
        assert IsProcessed(f) && b in ItemBatches(f.content.items);
      } else {
        forall i | 0 <= i < j && IsProcessed(files[i])
          ensures b !in ItemBatches(files[i].content.items)
        {
          if i == j - 1 {
            assert FileBatches(f) == ItemBatches(f.content.items);
          }
        }
      }
    }
  }

  /** x comes from item k of the j-th directory entry: a clean file holding a list, an object
      reached before any TypeError, whose message holds x.cve and whose date is x.date. */
  predicate Contributes(files: seq<DirEntry>, j: nat, k: nat, x: Occurrence) {
    && j < |files| && IsProcessed(files[j])
    && Reached(files[j].content.items, k)
    && var item := files[j].content.items[k];
    && item.Object?
    && ExtractCve(item.message).Some?
    && x.cve in ExtractCve(item.message).value
    && x.date == ExtractDate(item.timestamp)
  }

  /** A pair is collected exactly when some reached record of some clean file contributes it:
      files of any other name, unreadable files and files that hold no list add nothing. */
  lemma CollectedFrom(files: seq<DirEntry>, results: seq<Occurrence>, x: Occurrence)
    requires EnumeratesAll(results, DirBatches(files))
    ensures x in results <==> exists j: nat, k: nat :: Contributes(files, j, k, x)
  {
    var bs := DirBatches(files);
    EnumeratesCount(results, bs, x);
    CountPositive(bs, x);
    if x in results {
      var b :| b in bs && b.date == x.date && x.cve in b.cves;
      BatchesUpToSource(files, |files|, b);
      var j: nat :| j < |files| && IsProcessed(files[j]) && b in ItemBatches(files[j].content.items);
      ItemBatchesSource(files[j].content.items, b);
      var k: nat :| Reached(files[j].content.items, k) && BatchOfItem(files[j].content.items, k, b);
      assert Contributes(files, j, k, x);
    }
    if exists j: nat, k: nat :: Contributes(files, j, k, x) {
      var j: nat, k: nat :| Contributes(files, j, k, x);
      var items := files[j].content.items;
      var b := Batch(ExtractDate(items[k].timestamp), ExtractCve(items[k].message).value);
      assert BatchOfItem(items, k, b);
      ItemBatchesSource(items, b);
      BatchesUpToSource(files, |files|, b);
      assert b in bs;
    }
  }
}
