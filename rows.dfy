/** One output row of `process_json_files`: the registry's vendor and product for the
    identifier (or "REJECTED"), the catalog's date of addition (or "none"), the "n/a"
    fallback to the catalog's names, and the semicolon-separated line that is written. */
module Rows {
  import opened Wrappers
  import opened KevCatalog
  import opened Occurrences

  /** An element of the registry record's `containers.cna.affected` list; `None` is a missing key. */
  datatype Party = Party(vendor: Option<string>, product: Option<string>)

  /** What `cve_json.id(cve)` gives, after the `json.dumps`/`json.loads` round trip. */
  datatype RegistryReply =
    /** A JSON object, with its `cveMetadata.state` and its `containers.cna.affected`
        (`None` where that path is missing). */
    | Record(state: Option<string>, affected: Option<seq<Party>>)
    /** `null` or any other value that is not an object: subscripting it raises a TypeError. */
    | NotAnObject
    /** The lookup itself raised. */
    | LookupFailed

  /** The subscript of the registry record that is missing. */
  datatype Key = StateKey | AffectedKey | VendorKey | ProductKey

  /** The exception that ends the run while a row is being built. */
  datatype RowError = LookupError | TypeError | KeyError(key: Key) | IndexError

  datatype Row = Row(date: string, cve: string, vendor: string, product: string, dateAdded: string)

  const Rejected: string := "REJECTED"
  const NotApplicable: string := "n/a"
  const NoKevDate: string := "none"

  /** The registry record can be read: it is an object with a state, and unless that state is
      "REJECTED", a first affected party with a vendor and a product. */
  predicate Readable(reply: RegistryReply) {
    && reply.Record?
    && reply.state.Some?
    && (reply.state.value != Rejected ==>
          && reply.affected.Some? && |reply.affected.value| > 0
          && reply.affected.value[0].vendor.Some? && reply.affected.value[0].product.Some?)
  }

  /** Vendor and product as the registry gives them (lines 100-105), or the exception that
      reading them raises, in the order Python evaluates the subscripts. */
  function RegistryNames(reply: RegistryReply): Result<(string, string), RowError> {
    match reply
    case LookupFailed => Err(LookupError)
    case NotAnObject => Err(TypeError)
    case Record(state, affected) =>
      if state.None? then Err(KeyError(StateKey))
      else if state.value == Rejected then Ok((Rejected, Rejected))
      else if affected.None? then Err(KeyError(AffectedKey))
      else if affected.value == [] then Err(IndexError)
      else if affected.value[0].vendor.None? then Err(KeyError(VendorKey))
      else if affected.value[0].product.None? then Err(KeyError(ProductKey))
      else Ok((affected.value[0].vendor.value, affected.value[0].product.value))
  }

  /** `kev_info.get("dateAdded", "none")`. */
  function DateAdded(kev: map<string, KevEntry>, cve: string): string {
    if cve in kev then kev[cve].dateAdded else NoKevDate
  }

  /** The row for one (date, identifier) pair (its meaning is DeriveRowMeaning). */
  function DeriveRow(o: Occurrence, kev: map<string, KevEntry>, reply: RegistryReply): Result<Row, RowError> {
    var names :- RegistryNames(reply);
    var dateAdded := DateAdded(kev, o.cve);
    var vendor := if names.0 == NotApplicable && dateAdded != NoKevDate then kev[o.cve].vendor else names.0;
    var product := if names.1 == NotApplicable && dateAdded != NoKevDate then kev[o.cve].product else names.1;
    Ok(Row(o.date, o.cve, vendor, product, dateAdded))
  }

  /** A row is built exactly when the registry record is readable. It keeps the pair's date and
      identifier, takes the catalog's date of addition or "none", and is "REJECTED" throughout
      for a rejected identifier; a reply that is no object raises neither KeyError nor IndexError. */
  lemma DeriveRowMeaning(o: Occurrence, kev: map<string, KevEntry>, reply: RegistryReply)
    ensures var r := DeriveRow(o, kev, reply);
            && (r.Ok? <==> Readable(reply))
            && (r.Ok? ==> r.value.date == o.date && r.value.cve == o.cve)
            && (r.Ok? ==> r.value.dateAdded == (if o.cve in kev then kev[o.cve].dateAdded else "none"))
            && (r.Ok? && reply.state == Some(Rejected) ==> r.value.vendor == Rejected && r.value.product == Rejected)
            && (!reply.Record? ==> r.Err? && r.error != IndexError && !r.error.KeyError?)
  {
  }

  /** The fallback rule: the registry's vendor is kept unless it is "n/a" and the catalog holds
      the identifier with a date other than "none"; then the catalog's vendor replaces it.
      The product follows the same rule on its own. */
  lemma FallbackRule(o: Occurrence, kev: map<string, KevEntry>, reply: RegistryReply)
    requires Readable(reply) && reply.state.value != Rejected
    ensures var party := reply.affected.value[0];
            var useKev := o.cve in kev && kev[o.cve].dateAdded != "none";
            && DeriveRow(o, kev, reply).value.vendor
                 == (if party.vendor.value == "n/a" && useKev then kev[o.cve].vendor else party.vendor.value)
            && DeriveRow(o, kev, reply).value.product
                 == (if party.product.value == "n/a" && useKev then kev[o.cve].product else party.product.value)
  {
  }

  /** Without a catalog entry the registry's names pass through, "n/a" included, and the
      date of addition is "none". */
  lemma NoCatalogEntry(o: Occurrence, kev: map<string, KevEntry>, reply: RegistryReply)
    requires Readable(reply) && o.cve !in kev
    ensures DeriveRow(o, kev, reply).value.dateAdded == "none"
    ensures RegistryNames(reply) == Ok((DeriveRow(o, kev, reply).value.vendor, DeriveRow(o, kev, reply).value.product))
  {
  }

  // ----- Rendering

  const HeaderFields: seq<string> := ["Date", "CVE", "Vendor", "Product", "DateAddedKEV"]

  /** "Date;CVE;Vendor;Product;DateAddedKEV". */
  const Header: string := Join(HeaderFields)

  /** The fields separated by ';'. */
  function Join(fields: seq<string>): string
    requires |fields| > 0
  {
    if |fields| == 1 then fields[0] else fields[0] + ";" + Join(fields[1..])
  }

  function Quote(s: string): string {
    "\"" + s + "\""
  }

  /** The line `f'{date};{cve};"{vendor}";"{product}";{date_added}'` (without its newline). */
  function RenderRow(r: Row): string {
    Join([r.date, r.cve, Quote(r.vendor), Quote(r.product), r.dateAdded])
  }

  /** The fields of a line: the pieces between the ';' characters. */
  function Split(s: string): (fields: seq<string>)
    ensures |fields| > 0
  {
    if s == [] then [""]
    else
      var rest := Split(s[1..]);
      if s[0] == ';' then [""] + rest else [[s[0]] + rest[0]] + rest[1..]
  }

  function Unquote(s: string): Option<string> {
    if |s| >= 2 && s[0] == '"' && s[|s| - 1] == '"' then Some(s[1..|s| - 1]) else None
  }

  /** Reading a written line back. */
  function ParseRow(line: string): Option<Row> {
    var f := Split(line);
    if |f| == 5 && Unquote(f[2]).Some? && Unquote(f[3]).Some?
    then Some(Row(f[0], f[1], Unquote(f[2]).value, Unquote(f[3]).value, f[4]))
    else None
  }

  lemma {:induction false} SplitPlain(a: string)
    requires ';' !in a
    ensures Split(a) == [a]
  {
    if a != [] {
      SplitPlain(a[1..]);
      assert a == [a[0]] + a[1..];
    }
  }

  lemma {:induction false} SplitConcat(a: string, b: string)
    requires ';' !in a
    ensures Split(a + ";" + b) == [a] + Split(b)
  {
    if a == [] {
      assert a + ";" + b == [';'] + b;
      assert (a + ";" + b)[1..] == b;
    } else {
      assert (a + ";" + b)[1..] == a[1..] + ";" + b;
      SplitConcat(a[1..], b);
      assert a == [a[0]] + a[1..];
    }
  }

  /** Splitting a joined line gives its fields back when none contains a ';'. */
  lemma {:induction false} SplitJoin(fields: seq<string>)
    requires |fields| > 0
    requires forall i :: 0 <= i < |fields| ==> ';' !in fields[i]
    ensures Split(Join(fields)) == fields
  {
    if |fields| == 1 {
      SplitPlain(fields[0]);
    } else {
      SplitJoin(fields[1..]);
      SplitConcat(fields[0], Join(fields[1..]));
      assert fields == [fields[0]] + fields[1..];
    }
  }

  /** No field of the row holds the separator. */
  predicate Separable(r: Row) {
    ';' !in r.date && ';' !in r.cve && ';' !in r.vendor && ';' !in r.product && ';' !in r.dateAdded
  }

  /** A written line reads back as its row, unless a field holds a ';' (the source quotes
      vendor and product but escapes nothing). */
  lemma ParseRenderRow(r: Row)
    ensures Separable(r) ==> ParseRow(RenderRow(r)) == Some(r)
  {
    if Separable(r) {
      var fields := [r.date, r.cve, Quote(r.vendor), Quote(r.product), r.dateAdded];
      assert ';' !in Quote(r.vendor) && ';' !in Quote(r.product);
      SplitJoin(fields);
      assert Unquote(Quote(r.vendor)) == Some(r.vendor);
      assert Unquote(Quote(r.product)) == Some(r.product);
    }
  }

  /** With a ';' in the vendor or product, two different rows can give the same line:
      `"a";"b"` with a vendor `a";"b`, or with a product `b";"p`. */
  lemma RenderRowAmbiguous(d: string, c: string, a: string, b: string, p: string, x: string)
    ensures RenderRow(Row(d, c, a + "\";\"" + b, p, x)) == RenderRow(Row(d, c, a, b + "\";\"" + p, x))
  {
    var q := "\"";
    var v1, p1, v2, p2 := Quote(a + "\";\"" + b), Quote(p), Quote(a), Quote(b + "\";\"" + p);
    assert v1 + ";" + p1 == q + a + q + ";" + q + b + q + ";" + q + p + q;
    assert v2 + ";" + p2 == q + a + q + ";" + q + b + q + ";" + q + p + q;
    JoinFive(d, c, v1, p1, x);
    JoinFive(d, c, v2, p2, x);
  }

  lemma JoinFive(f0: string, f1: string, f2: string, f3: string, f4: string)
    ensures Join([f0, f1, f2, f3, f4]) == f0 + ";" + f1 + ";" + (f2 + ";" + f3) + ";" + f4
  {
    var fs := [f0, f1, f2, f3, f4];
    assert fs[4..] == [f4] && fs[3..][1..] == fs[4..];
    assert fs[2..][1..] == fs[3..] && fs[1..][1..] == fs[2..];
    assert Join(fs[3..]) == f3 + ";" + f4;
    assert Join(fs[2..]) == f2 + ";" + (f3 + ";" + f4);
    assert Join(fs[1..]) == f1 + ";" + (f2 + ";" + (f3 + ";" + f4));
  }

  /** The header and every separable row have the same five columns. */
  lemma ColumnsMatchHeader(r: Row)
    requires Separable(r)
    ensures |Split(Header)| == |Split(RenderRow(r))| == 5
  {
    SplitJoin(HeaderFields);
    ParseRenderRow(r);
  }
}
