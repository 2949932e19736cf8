/** The catalog loader: the index that `fetch_kev_catalog` builds from the entries of the
    known-exploited-vulnerabilities feed, or the exception that ends the program when the
    decoded body does not have the expected shape. The HTTP request and the JSON decoding are
    outside the model; the loader receives the response status and the decoded body. */
module KevCatalog {
  import opened Wrappers

  /** One element of the feed's `vulnerabilities` list; `None` is a missing key. */
  datatype FeedEntry = FeedEntry(
    cveID: Option<string>,
    vendorProject: Option<string>,
    product: Option<string>,
    dateAdded: Option<string>)

  /** An element of the `vulnerabilities` list: an object, or any other value, on which
      `vuln.get` raises AttributeError. */
  datatype FeedItem = Entry(entry: FeedEntry) | NotAnEntry

  /** What `data.get('vulnerabilities', [])` gives: the key is missing (the default `[]`), a
      value the loop iterates (a list; a string or an object iterates as its characters or its
      keys, which are items that are not objects), or a value that cannot be iterated (`null`,
      a number, a boolean), on which `for` raises TypeError. */
  datatype Vulnerabilities = MissingKey | Iterable(items: seq<FeedItem>) | NotIterable

  /** The decoded body of a 200 response: an object, or any other value, on which `data.get`
      raises AttributeError. */
  datatype FeedBody = FeedObject(vulnerabilities: Vulnerabilities) | NotAnObjectBody

  /** The exception that ends the program while the catalog is built. */
  datatype KevError = KevAttributeError | KevTypeError

  /** What the index keeps of an entry. */
  datatype KevEntry = KevEntry(vendor: string, product: string, dateAdded: string)

  /** `if cve_id:` — the entry has a non-empty identifier. */
  predicate HasId(v: FeedEntry) {
    v.cveID.Some? && v.cveID.value != ""
  }

  /** The entry as indexed: a missing field reads as the empty string. */
  function Indexed(v: FeedEntry): KevEntry {
    KevEntry(v.vendorProject.GetOr(""), v.product.GetOr(""), v.dateAdded.GetOr(""))
  }

  /** The dictionary after the loop has seen all of vs, in order. */
  function Index(vs: seq<FeedEntry>): map<string, KevEntry> {
    if vs == [] then map[]
    else
      var m := Index(vs[..|vs| - 1]);
      var v := vs[|vs| - 1];
      if HasId(v) then m[v.cveID.value := Indexed(v)] else m
  }

  /** The keys of the index are exactly the non-empty identifiers of the entries. */
  lemma {:induction false} IndexKeys(vs: seq<FeedEntry>, id: string)
    ensures id in Index(vs) <==> exists j :: 0 <= j < |vs| && HasId(vs[j]) && vs[j].cveID.value == id
  {
    if vs != [] {
      var init := vs[..|vs| - 1];
      IndexKeys(init, id);
      if exists j :: 0 <= j < |init| && HasId(init[j]) && init[j].cveID.value == id {
        var j :| 0 <= j < |init| && HasId(init[j]) && init[j].cveID.value == id;
        assert vs[j] == init[j];
      }
      if exists j :: 0 <= j < |vs| && HasId(vs[j]) && vs[j].cveID.value == id {
        var j :| 0 <= j < |vs| && HasId(vs[j]) && vs[j].cveID.value == id;
        if j < |init| {
          assert init[j] == vs[j];
        }
      }
    }
  }

  /** An identifier maps to the fields of its last entry in the feed: a later duplicate
      overwrites an earlier one, and missing fields are empty strings. */
  lemma {:induction false} IndexLastWins(vs: seq<FeedEntry>, j: nat)
    requires j < |vs| && HasId(vs[j])
    requires forall k :: j < k < |vs| ==> vs[k].cveID != vs[j].cveID
    ensures vs[j].cveID.value in Index(vs)
    ensures Index(vs)[vs[j].cveID.value] == KevEntry(
      vs[j].vendorProject.GetOr(""), vs[j].product.GetOr(""), vs[j].dateAdded.GetOr(""))
    decreases |vs|
  {
    if j < |vs| - 1 {
      var init := vs[..|vs| - 1];
      assert init[j] == vs[j];
      IndexLastWins(init, j);
    }
  }

  /** The loop of lines 21-28 over the items, item after item: the first item that is not an
      object raises and ends it (its meaning is LoadMeaning). */
  function Load(items: seq<FeedItem>): Result<map<string, KevEntry>, KevError>
    decreases |items|
  {
    if items == [] then Ok(map[])
    else
      var m :- Load(items[..|items| - 1]);
      match items[|items| - 1]
      case NotAnEntry => Err(KevAttributeError)
      case Entry(v) => Ok(if HasId(v) then m[v.cveID.value := Indexed(v)] else m)
  }

  /** The entries among the items, in order. */
  function Entries(items: seq<FeedItem>): seq<FeedEntry>
    decreases |items|
  {
    if items == [] then []
    else
      var init := Entries(items[..|items| - 1]);
      match items[|items| - 1]
      case Entry(v) => init + [v]
      case NotAnEntry => init
  }

  /** The loop finishes exactly when every item is an object, and then it has built the index
      of the entries; otherwise it raises AttributeError. */
  lemma {:induction false} LoadMeaning(items: seq<FeedItem>)
    ensures Load(items).Ok? <==> forall i :: 0 <= i < |items| ==> items[i].Entry?
    ensures Load(items).Ok? ==> Load(items).value == Index(Entries(items))
    ensures Load(items).Err? ==> Load(items).error == KevAttributeError
    decreases |items|
  {
    if items != [] {
      var init := items[..|items| - 1];
      LoadMeaning(init);
      if Load(init).Err? {
        var i :| 0 <= i < |init| && !init[i].Entry?;
        assert items[i] == init[i];
      } else {
        forall i | 0 <= i < |init| ensures items[i].Entry? {
          assert items[i] == init[i];
        }
        match items[|items| - 1] {
          case NotAnEntry =>
          case Entry(v) =>
            var es := Entries(init) + [v];
            assert es[..|es| - 1] == Entries(init);
        }
      }
    }
  }

  /** Once an item has raised, later items change nothing. */
  lemma {:induction false} LoadFails(items: seq<FeedItem>, k: nat, j: nat)
    requires k <= j <= |items| && Load(items[..k]).Err?
    ensures Load(items[..j]) == Load(items[..k])
    decreases j - k
  {
    if k < j {
      assert items[..k + 1][..k] == items[..k];
      LoadFails(items, k + 1, j);
    }
  }

  /** `fetch_kev_catalog` after the request: a non-200 status gives the empty dictionary;
      otherwise the body must be an object, a missing `vulnerabilities` key is an empty list,
      and the loop fills the dictionary item by item. */
  method BuildKevIndex(status: int, body: FeedBody)
    returns (catalog: Result<map<string, KevEntry>, KevError>)
    ensures status != 200 ==> catalog == Ok(map[])
    ensures status == 200 && body.NotAnObjectBody? ==> catalog == Err(KevAttributeError)
    ensures status == 200 && body == FeedObject(MissingKey) ==> catalog == Ok(map[])
    ensures status == 200 && body == FeedObject(NotIterable) ==> catalog == Err(KevTypeError)
    ensures status == 200 && body.FeedObject? && body.vulnerabilities.Iterable? ==>
              catalog == Load(body.vulnerabilities.items)
  {
    if status != 200 {
      return Ok(map[]);
    }
    if body.NotAnObjectBody? {
      return Err(KevAttributeError);
    }
    var items: seq<FeedItem>;
    match body.vulnerabilities {
      case MissingKey =>
        items := [];
      case NotIterable =>
        return Err(KevTypeError);
      case Iterable(xs) =>
        items := xs;
    }
    var details: map<string, KevEntry> := map[];
    var i := 0;
    while i < |items|
      invariant 0 <= i <= |items|
      invariant Load(items[..i]) == Ok(details)
    {
      assert items[..i + 1][..i] == items[..i];
      match items[i] {
        case NotAnEntry =>
          LoadFails(items, i + 1, |items|);
          assert items[..|items|] == items;
          return Err(KevAttributeError);
        case Entry(vuln) =>
          if HasId(vuln) {
            details := details[vuln.cveID.value := Indexed(vuln)];
          }
      }
      i := i + 1;
    }
    assert items[..i] == items;
    return Ok(details);
  }
}
