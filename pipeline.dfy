/** `process_json_files` as a whole: collect the pairs, stop if there are none, sort them by
    date, then look every pair up in the registry and write its line under the header.
    The directory, the catalog left by `fetch_kev_catalog` and the registry service are
    parameters; the written file is its sequence of lines. */
module Pipeline {
  import opened Wrappers
  import opened KevCatalog
  import opened Occurrences
  import opened DateSort
  import opened Rows

  /** How a run ends. */
  datatype Outcome =
    /** The input folder does not exist; nothing is written. */
    | FolderMissing
    /** No pair was collected; nothing is written. */
    | NoCveFound
    /** The output file, line by line. */
    | Written(lines: seq<string>)
    /** Building a row raised: the lines already written stay in the file and the run ends. */
    | Aborted(lines: seq<string>, error: RowError)

  /** The file the writing loop leaves once it has dealt with the pairs of `sorted`, pair after
      pair: the header, then per pair the line of its row; the row that raises ends the run and
      later pairs change nothing (its meaning is ReportMeaning). */
  function ReportOutcome(sorted: seq<Occurrence>, kev: map<string, KevEntry>, registry: string -> RegistryReply): (r: Outcome)
    ensures r.Written? || r.Aborted?
    decreases |sorted|
  {
    if sorted == [] then Written([Header])
    else
      var before := ReportOutcome(sorted[..|sorted| - 1], kev, registry);
      var pair := sorted[|sorted| - 1];
      if !before.Written? then before
      else
        match DeriveRow(pair, kev, registry(pair.cve))
        case Err(e) => Aborted(before.lines, e)
        case Ok(row) => Written(before.lines + [RenderRow(row)])
  }

  /** The identifiers passed to the registry, in call order: one per pair the loop reaches
      (its meaning is LookupsMeaning). */
  function Lookups(sorted: seq<Occurrence>, kev: map<string, KevEntry>, registry: string -> RegistryReply): seq<string>
    decreases |sorted|
  {
    if sorted == [] then []
    else
      var init := sorted[..|sorted| - 1];
      if ReportOutcome(init, kev, registry).Written? then Lookups(init, kev, registry) + [sorted[|sorted| - 1].cve]
      else Lookups(init, kev, registry)
  }

  /** The report is the header, then one line per sorted pair in order, up to the first pair
      whose registry record cannot be read; that pair ends the run. */
  lemma ReportMeaning(sorted: seq<Occurrence>, kev: map<string, KevEntry>, registry: string -> RegistryReply)
    ensures var r := ReportOutcome(sorted, kev, registry);
            && (r.Written? || r.Aborted?)
            && (r.Written? <==> forall i :: 0 <= i < |sorted| ==> Readable(registry(sorted[i].cve)))
            && 1 <= |r.lines| <= |sorted| + 1 && r.lines[0] == Header
            && (r.Written? ==> |r.lines| == |sorted| + 1)
            && (r.Aborted? ==> |r.lines| <= |sorted| && !Readable(registry(sorted[|r.lines| - 1].cve)))
            && (forall i :: 0 <= i < |r.lines| - 1 ==>
                  && Readable(registry(sorted[i].cve))
                  && r.lines[i + 1] == RenderRow(DeriveRow(sorted[i], kev, registry(sorted[i].cve)).value))
  {
    ReportShape(sorted, kev, registry);
    ReportLines(sorted, kev, registry);
  }

  /** The first half of ReportMeaning: how the report ends and how many lines it has. */
  lemma {:induction false} ReportShape(sorted: seq<Occurrence>, kev: map<string, KevEntry>, registry: string -> RegistryReply)
    ensures var r := ReportOutcome(sorted, kev, registry);
            && (r.Written? || r.Aborted?)
            && (r.Written? <==> forall i :: 0 <= i < |sorted| ==> Readable(registry(sorted[i].cve)))
            && 1 <= |r.lines| <= |sorted| + 1 && r.lines[0] == Header
            && (r.Written? ==> |r.lines| == |sorted| + 1)
            && (r.Aborted? ==> |r.lines| <= |sorted| && !Readable(registry(sorted[|r.lines| - 1].cve)))
    decreases |sorted|
  {
    if sorted != [] {
      var init := sorted[..|sorted| - 1];
      var pair := sorted[|sorted| - 1];
      ReportShape(init, kev, registry);
      DeriveRowMeaning(pair, kev, registry(pair.cve));
      var before := ReportOutcome(init, kev, registry);
      if before.Written? {
        forall i | 0 <= i < |init| ensures Readable(registry(sorted[i].cve)) {
          assert sorted[i] == init[i];
        }
      } else {
        assert sorted[|before.lines| - 1] == init[|before.lines| - 1];
      }
    }
  }

  /** The second half of ReportMeaning: line i + 1 of the report is the rendered row of pair i,
      whose record is readable. */
  lemma {:induction false} ReportLines(sorted: seq<Occurrence>, kev: map<string, KevEntry>, registry: string -> RegistryReply)
    ensures var r := ReportOutcome(sorted, kev, registry);
            forall i :: 0 <= i < |r.lines| - 1 ==>
              && i < |sorted|
              && Readable(registry(sorted[i].cve))
              && r.lines[i + 1] == RenderRow(DeriveRow(sorted[i], kev, registry(sorted[i].cve)).value)
    decreases |sorted|
  {
    if sorted != [] {
      var init := sorted[..|sorted| - 1];
      var pair := sorted[|sorted| - 1];
      ReportLines(init, kev, registry);
      ReportShape(init, kev, registry);
      DeriveRowMeaning(pair, kev, registry(pair.cve));
      var before, r := ReportOutcome(init, kev, registry), ReportOutcome(sorted, kev, registry);
      forall i | 0 <= i < |before.lines| - 1
        ensures Readable(registry(sorted[i].cve))
        ensures r.lines[i + 1] == RenderRow(DeriveRow(sorted[i], kev, registry(sorted[i].cve)).value)
      {
        assert sorted[i] == init[i];
      }
    }
  }

  /** One lookup per row attempted, in row order, however often an identifier recurs (there
      is no cache): every pair when the file is written, up to the failing pair otherwise. */
  lemma {:induction false} LookupsMeaning(sorted: seq<Occurrence>, kev: map<string, KevEntry>, registry: string -> RegistryReply)
    ensures var calls := Lookups(sorted, kev, registry);
            var r := ReportOutcome(sorted, kev, registry);
            && |calls| <= |sorted|
            && |calls| == (if r.Written? then |sorted| else |r.lines|)
            && forall i :: 0 <= i < |calls| ==> calls[i] == sorted[i].cve
    decreases |sorted|
  {
    if sorted != [] {
      var init := sorted[..|sorted| - 1];
      LookupsMeaning(init, kev, registry);
      ReportShape(init, kev, registry);
      var before := Lookups(init, kev, registry);
      forall i | 0 <= i < |before| ensures before[i] == sorted[i].cve {
        assert sorted[i] == init[i];
      }
    }
  }

  /** The loop of lines 88-112: header first, then per pair one registry lookup and one line. */
  method WriteReport(sorted: seq<Occurrence>, kev: map<string, KevEntry>, registry: string -> RegistryReply)
    returns (outcome: Outcome, calls: seq<string>)
    ensures outcome == ReportOutcome(sorted, kev, registry)
    ensures calls == Lookups(sorted, kev, registry)
  {
    var lines := [Header];
    calls := [];
    var i := 0;
    while i < |sorted|
      invariant 0 <= i <= |sorted|
      invariant ReportOutcome(sorted[..i], kev, registry) == Written(lines)
      invariant calls == Lookups(sorted[..i], kev, registry)
    {
      var pair := sorted[i];
      var reply := registry(pair.cve);
      calls := calls + [pair.cve];
      var row := DeriveRow(pair, kev, reply);
      LoopStep(sorted, kev, registry, i);
      if row.Err? {
        return Aborted(lines, row.error), calls;
      }
      lines := lines + [RenderRow(row.value)];
      i := i + 1;
    }
    assert sorted[..i] == sorted;
    outcome := Written(lines);
  }

  /** One pass of the writing loop: the pair is looked up, and its row either extends the
      lines or raises, and then the report and the calls are those the loop has reached. */
  lemma LoopStep(os: seq<Occurrence>, kev: map<string, KevEntry>, registry: string -> RegistryReply, i: nat)
    requires i < |os| && ReportOutcome(os[..i], kev, registry).Written?
    ensures var before := ReportOutcome(os[..i], kev, registry);
            var row := DeriveRow(os[i], kev, registry(os[i].cve));
            var calls := Lookups(os[..i], kev, registry) + [os[i].cve];
            && Lookups(os[..i + 1], kev, registry) == calls
            && (row.Ok? ==> ReportOutcome(os[..i + 1], kev, registry) == Written(before.lines + [RenderRow(row.value)]))
            && (row.Err? ==>
                  && ReportOutcome(os, kev, registry) == Aborted(before.lines, row.error)
                  && Lookups(os, kev, registry) == calls)
  {
    assert os[..i + 1][..i] == os[..i];
    if DeriveRow(os[i], kev, registry(os[i].cve)).Err? {
      RunEnded(os, kev, registry, i + 1, |os|);
      assert os[..|os|] == os;
    }
  }

  /** Once the run has ended, the report and the calls stay as they are. */
  lemma {:induction false} RunEnded(os: seq<Occurrence>, kev: map<string, KevEntry>, registry: string -> RegistryReply, k: nat, j: nat)
    requires k <= j <= |os| && !ReportOutcome(os[..k], kev, registry).Written?
    ensures ReportOutcome(os[..j], kev, registry) == ReportOutcome(os[..k], kev, registry)
    ensures Lookups(os[..j], kev, registry) == Lookups(os[..k], kev, registry)
    decreases j - k
  {
    if k < j {
      assert os[..k + 1][..k] == os[..k];
      RunEnded(os, kev, registry, k + 1, j);
    }
  }

  /** `process_json_files`. The pairs come out of the collection in an order the set iteration
      decides, which is why `collected` is returned as a ghost: the outcome is the report of
      that collection, sorted. */
  method ProcessJsonFiles(folder: Option<seq<DirEntry>>, kev: map<string, KevEntry>, registry: string -> RegistryReply)
    returns (outcome: Outcome, calls: seq<string>, ghost collected: seq<Occurrence>)
    ensures folder.None? ==> outcome == FolderMissing && calls == []
    ensures folder.Some? ==> EnumeratesAll(collected, DirBatches(folder.value))
    ensures folder.Some? && collected == [] ==> outcome == NoCveFound && calls == []
    ensures folder.Some? && collected != [] ==>
              && outcome == ReportOutcome(SortByDate(collected), kev, registry)
              && calls == Lookups(SortByDate(collected), kev, registry)
  {
    if folder.None? {
      return FolderMissing, [], [];
    }
    var results := CollectOccurrences(folder.value);
    collected := results;
    if results == [] {
      return NoCveFound, [], collected;
    }
    results := SortByDate(results);
    outcome, calls := WriteReport(results, kev, registry);
  }

  /** Every identifier is looked up once per line that mentions it, not once per run. */
  lemma OneLookupPerRow(sorted: seq<Occurrence>, kev: map<string, KevEntry>, registry: string -> RegistryReply)
    requires ReportOutcome(sorted, kev, registry).Written?
    ensures Lookups(sorted, kev, registry) == Cves(sorted)
    ensures multiset(Lookups(sorted, kev, registry)) == multiset(Cves(sorted))
  {
    LookupsMeaning(sorted, kev, registry);
    CvesIndexed(sorted);
  }

  lemma {:induction false} CvesIndexed(os: seq<Occurrence>)
    ensures forall i :: 0 <= i < |os| ==> Cves(os)[i] == os[i].cve
  {
    if os != [] {
      CvesIndexed(os[1..]);
    }
  }

  /** Without a catalog (a failed feed request leaves it empty) every line has "none" as date
      of addition, and the registry's names, "n/a" included, pass through. */
  lemma EmptyCatalogReport(sorted: seq<Occurrence>, registry: string -> RegistryReply, i: nat)
    requires 0 < i < |ReportOutcome(sorted, map[], registry).lines| && i <= |sorted|
    ensures var reply := registry(sorted[i - 1].cve);
            && RegistryNames(reply).Ok?
            && var names := RegistryNames(reply).value;
               ReportOutcome(sorted, map[], registry).lines[i]
                 == RenderRow(Row(sorted[i - 1].date, sorted[i - 1].cve, names.0, names.1, "none"))
  {
    var reply := registry(sorted[i - 1].cve);
    ReportMeaning(sorted, map[], registry);
    NoCatalogEntry(sorted[i - 1], map[], reply);
  }

  /** The report's lines come in the order of the sorted pairs: ascending dates. */
  lemma ReportInDateOrder(collected: seq<Occurrence>, kev: map<string, KevEntry>, registry: string -> RegistryReply, i: nat, j: nat)
    requires 0 < i < j < |ReportOutcome(SortByDate(collected), kev, registry).lines| && j <= |SortByDate(collected)|
    ensures var sorted := SortByDate(collected);
            var ri, rj := DeriveRow(sorted[i - 1], kev, registry(sorted[i - 1].cve)), DeriveRow(sorted[j - 1], kev, registry(sorted[j - 1].cve));
            && ri.Ok? && rj.Ok?
            && ri.value.date == sorted[i - 1].date && rj.value.date == sorted[j - 1].date
            && LexOrder.LexLe(ri.value.date, rj.value.date)
  {
    var sorted := SortByDate(collected);
    ReportMeaning(sorted, kev, registry);
    DeriveRowMeaning(sorted[i - 1], kev, registry(sorted[i - 1].cve));
    DeriveRowMeaning(sorted[j - 1], kev, registry(sorted[j - 1].cve));
    SortByDateSorted(collected);
  }
}
