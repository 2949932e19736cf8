# CVE extraction and enrichment, modelled in Dafny

`extract_cve.py` reads a folder of JSON message dumps and finds every CVE identifier
mentioned in the messages. It pairs each identifier with the day of its message and sorts
the pairs by day. For each pair it looks up the vendor and product in the CVE registry
(circl.lu, through `CVESearch`) and the date of addition in CISA's Known Exploited
Vulnerabilities (KEV) catalog. It writes one semicolon-separated line per pair under a
fixed header.

This project models the local logic of that pipeline and proves what it promises. The
models are:

- **the identifier scanner** `extract_cve`: a leftmost, non-overlapping, greedy scan for
  `CVE-\d{4}-\d{4,7}` over a `seq<char>`;
- **the date normaliser** `extract_date`;
- **the KEV index loop** of `fetch_kev_catalog`;
- **the collection loops** of `process_json_files`;
- **its stable sort by date**;
- **the per-row merge**: the REJECTED rule, the `"none"` default and the `"n/a"`
  fallback to the catalog;
- **the line rendering**;
- **the run as a whole**.

Modules, one per file:

| file | module | models |
|---|---|---|
| `wrappers.dfy` | `Wrappers` | `Option` and `Result` |
| `fields.dfy` | `Fields` | a JSON field value: absent, a string, or another value with its Python truthiness |
| `lex_order.dfy` | `LexOrder` | Python's `str` ordering, which the sort key uses |
| `cve_scanner.dfy` | `CveScanner` | `CVE_REGEX` and `extract_cve` |
| `dates.dfy` | `Dates` | `extract_date` |
| `kev_catalog.dfy` | `KevCatalog` | `fetch_kev_catalog` after the request, its loop and the exceptions it can raise |
| `occurrences.dfy` | `Occurrences` | the file, item and set loops that fill `results` |
| `date_sort.dfy` | `DateSort` | `results.sort(key=lambda x: x[0])` |
| `rows.dfy` | `Rows` | the registry reply, the row derivation, rendering and reading back a line |
| `pipeline.dfy` | `Pipeline` | the writing loop and `process_json_files` end to end |

The external inputs become parameters:

- the HTTP status and the decoded body of the KEV feed;
- the folder listing, given as `(name, decoded content)` entries in listing order;
- the registry service, given as a total function from identifier to reply.

The written file is its sequence of lines.

Behaviour of the code that a reader might not expect, which the model keeps:

- **There is no registry cache.** `cve_json.id(cve)` runs once per row
  (extract_cve.py:97), so an identifier that recurs is looked up again each time.
  `Pipeline.WriteReport` returns the identifiers it looked up, and
  `Pipeline.OneLookupPerRow` proves that there is one lookup per row.
- **An unreadable registry record ends the run.** Examples are a record with an empty
  `affected` list (`affected[0]` at extract_cve.py:101 is unguarded), a missing key, or a
  failed lookup. Nothing catches the exception in the writing loop. The outcome is
  `Aborted`, with the lines written before the failing row.
- **The fallback compares with the literal `"none"`.** It applies when `date_added != "none"`
  (extract_cve.py:108, 110). A catalog entry whose `dateAdded` is `''` still triggers it.
  One whose `dateAdded` is the string `"none"` does not.
- **A non-string message can raise inside a file.** If a message is truthy but not a string,
  `re.findall` raises a TypeError. The `except` at extract_cve.py:81 catches it. The rest of
  that file is skipped, and the pairs already appended stay in `results`.

## Model

| member | source | states |
|---|---|---|
| CveScanner.DigitRun | extract_cve.py:9 | the length of the maximal run of digits starting at `i`: every character in it is a digit, and the run ends at the end of the string or at a non-digit |
| CveScanner.MatchAt | extract_cve.py:9 | at position `p` the pattern matches with length `n` (greedy `{4,7}`: at most 7 trailing digits, no digit after a shorter match) exactly when the result is `Some(n)`; otherwise the result is `None` |
| CveScanner.SkipNoMatch | extract_cve.py:38 | where the pattern does not match at `i`, the matches from `i` on are those from `i + 1` on |
| CveScanner.SkipMatch | extract_cve.py:38 | where the pattern matches at `i` with length `n`, the matches from `i` on are that match and those from `i + n` on: matches do not overlap |
| CveScanner.ScanFromFinds | extract_cve.py:38 | scanning from `i`, the string `x` is found if and only if the greedy pattern matches `x` at some position `p >= i` |
| CveScanner.FindAllFinds | extract_cve.py:38 | `re.findall` over the whole text yields `x` if and only if the pattern matches `x` at some position |
| CveScanner.ExtractCve | extract_cve.py:35-38 | empty, absent or falsy text gives the empty set; the call fails (TypeError) if and only if the text is truthy and not a string |
| CveScanner.ExtractCveWellFormed | extract_cve.py:35-38 | every element returned is a well-formed identifier `CVE-dddd-dddd…` with four to seven digits at the end |
| CveScanner.ExtractCveExact | extract_cve.py:35-38 | for string text, the set holds `x` if and only if `x` is one of the leftmost greedy matches in the text |
| CveScanner.DigitRunAtLeast | extract_cve.py:9 | a run of `k` digits starting at `i` makes the maximal run at least `k` long |
| Dates.ExtractDate | extract_cve.py:41-44 | the result is the sentinel "Unknown Date" if and only if the timestamp is not a string of length at least 10; otherwise it is a 10-character prefix of the timestamp |
| Dates.DigitDatesBeforeSentinel | extract_cve.py:86 | any date that starts with a digit sorts strictly before "Unknown Date", so a sentinel row sorts after every row whose date starts with a digit |
| LexOrder.LexLeReflexive | extract_cve.py:86 | Python string order is reflexive |
| LexOrder.LexLeTotal | extract_cve.py:86 | any two strings are comparable |
| LexOrder.LexLeAntisymmetric | extract_cve.py:86 | two strings each less than or equal to the other are equal |
| LexOrder.LexLeTransitive | extract_cve.py:86 | the order is transitive |
| LexOrder.NotLessIsGreaterOrEqual | extract_cve.py:86 | a string not strictly less than another is greater than or equal to it |
| KevCatalog.IndexKeys | extract_cve.py:21-28 | an identifier is a key of the catalog if and only if some feed entry has it as a non-empty `cveID` |
| KevCatalog.IndexLastWins | extract_cve.py:22-28 | an identifier maps to the vendor, product and date of its last entry in the feed, with `''` for each missing field |
| KevCatalog.BuildKevIndex | extract_cve.py:17-32 | a non-200 status gives the empty catalog; with status 200 a body that is not an object raises AttributeError, a missing `vulnerabilities` key gives the empty catalog, a value that cannot be iterated raises TypeError, and an iterable value gives what the loop over its items gives |
| KevCatalog.LoadMeaning | extract_cve.py:21-28 | the loop over the items finishes if and only if every item is an object, and then the catalog is the index of the entries; otherwise it raises AttributeError |
| KevCatalog.LoadFails | extract_cve.py:21-22 | once an item has raised, later items change nothing |
| Occurrences.EnumerateSet | extract_cve.py:78-79 | one record's appended pairs all carry the record's date and list each identifier of the set exactly once, in whatever order the set yields |
| Occurrences.BlockCount | extract_cve.py:78-79 | a pair occurs once among a record's appended pairs if it has the record's date and an identifier of its set, and not at all otherwise |
| Occurrences.ItemOccurrences | extract_cve.py:68-82 | the pairs appended for one file's items are the per-record enumerations of each dictionary item's identifier set, in item order; non-dictionary items add nothing; the first item whose message raises ends the file |
| Occurrences.CollectOccurrences | extract_cve.py:57-82 | `results` holds, in listing order, the enumerations of the records of the files whose name ends in `clean.json` and whose content decodes to a list; unreadable and non-list files add nothing |
| Occurrences.EnumeratesLength | extract_cve.py:78-79 | a record adds exactly as many pairs as its set has identifiers |
| Occurrences.EnumeratesCount | extract_cve.py:57-79 | the number of times a pair occurs in `results` equals the number of records that gave it |
| Occurrences.CountPositive | extract_cve.py:78-79 | a pair is given by at least one record if and only if some record holds its identifier under its date |
| Occurrences.ItemBatchesSource | extract_cve.py:68-79 | a record's identifier set is collected from a file if and only if it comes from a dictionary item reached before any item that raises |
| Occurrences.ReadFile | extract_cve.py:57-79 | a file with a `clean.json` name and list content appends its records' pairs after those of the earlier entries |
| Occurrences.SkipFile | extract_cve.py:57-66 | any other entry adds no pair |
| Occurrences.EnumeratesConcat | extract_cve.py:57-79 | the pairs of two stretches of records, one after the other, are the pairs of the records of both, in order |
| Occurrences.BatchesUpToSource | extract_cve.py:57-66 | a record is collected from the first `j` entries of the listing if and only if it comes from one of them that is processed (a `clean.json` name, list content) |
| Occurrences.CollectedFrom | extract_cve.py:57-82 | a pair is in `results` if and only if some processed file has a reached dictionary item whose message contains the identifier and whose timestamp normalises to the date |
| DateSort.InsertPermutes | extract_cve.py:86 | inserting adds exactly the inserted pair |
| DateSort.InsertSorted | extract_cve.py:86 | inserting into a date-sorted sequence keeps it date-sorted |
| DateSort.InsertWithDate | extract_cve.py:86 | insertion is stable: the inserted pair comes before the pairs of its own date that were already there, and pairs of other dates are untouched |
| DateSort.SortByDateSorted | extract_cve.py:86 | the sorted pairs are in ascending date order and are a permutation of the collected ones |
| DateSort.SortByDateStable | extract_cve.py:86 | for each date, the pairs of that date keep their collected order |
| DateSort.SortedStableUnique | extract_cve.py:86 | two date-sorted sequences that hold the same pairs in the same order for every date are equal |
| DateSort.SortByDateUnique | extract_cve.py:86 | a sequence is the sorted result if and only if it is date-sorted and stable with respect to the input, so every stable sort (Timsort included) gives this result |
| Rows.DeriveRowMeaning | extract_cve.py:95-112 | a row is built if and only if the registry record is readable; it copies the date and the identifier; its date of addition is the catalog's, or "none" when the catalog lacks the identifier; a REJECTED record gives "REJECTED" as vendor and as product; a reply that is not an object raises neither KeyError nor IndexError |
| Rows.FallbackRule | extract_cve.py:100-111 | for a readable record that is not REJECTED, the rendered vendor is the first affected party's vendor, unless it is "n/a" and the catalog holds the identifier with a date other than "none", in which case it is the catalog's vendor; the product follows the same rule on its own |
| Rows.NoCatalogEntry | extract_cve.py:95-111 | without a catalog entry the date of addition is "none", and the registry's vendor and product pass through unchanged, "n/a" included |
| Rows.SplitJoin | extract_cve.py:112 | splitting a `;`-joined line gives back its fields when no field contains `;` |
| Rows.ParseRenderRow | extract_cve.py:112 | a written line reads back to its row (quotes stripped from vendor and product) when no field contains `;` |
| Rows.RenderRowAmbiguous | extract_cve.py:112 | without escaping, two different rows can give the same line: a vendor containing `";"` is indistinguishable from a split product |
| Rows.ColumnsMatchHeader | extract_cve.py:89-112 | the header and every separable row line have five columns |
| Pipeline.ReportMeaning | extract_cve.py:88-112 | the file is the header and then one line per sorted pair in order, line `i + 1` being the rendered row of pair `i`; the loop writes the whole file if and only if every pair's registry record is readable; otherwise it aborts at the first unreadable one, keeping the lines before it |
| Pipeline.LookupsMeaning | extract_cve.py:92-97 | the registry is asked for the identifier of each attempted pair, in order: every pair when the file is written, up to and including the failing pair when the run aborts |
| Pipeline.CvesIndexed | extract_cve.py:92 | element `i` of the identifiers of a pair sequence is the identifier of pair `i` |
| Pipeline.WriteReport | extract_cve.py:88-112 | the writing loop produces exactly the report's outcome and asks the registry for exactly the report's lookups |
| Pipeline.LoopStep | extract_cve.py:92-112 | one pass of the loop looks the pair up; its row either extends the written lines, or raises, and then the lines so far and the lookups so far are the whole run's |
| Pipeline.RunEnded | extract_cve.py:92-112 | once a row has raised, later pairs change neither the file nor the lookups |
| Pipeline.ProcessJsonFiles | extract_cve.py:48-116 | a missing folder writes nothing and makes no lookup; otherwise the collected pairs are those of the listing's processed files; with no pair nothing is written and no lookup is made; else the outcome and lookups are the report of the date-sorted pairs |
| Pipeline.OneLookupPerRow | extract_cve.py:92-97 | in a written report the lookups are the identifiers of the pairs in order, so each identifier is looked up as many times as it has pairs: there is no cache |
| Pipeline.EmptyCatalogReport | extract_cve.py:95-112 | with an empty catalog (what a failed feed request leaves) every written line has "none" as date of addition, and the registry's names unchanged |
| Pipeline.ReportInDateOrder | extract_cve.py:86-112 | the lines of the report carry the dates of the sorted pairs, in ascending order |

## Left out

- `translator.py` is not part of this model. It wraps a network translation service, with file appends, sleeps and prints.
- The HTTP request to the KEV feed and `response.json()` are left out. The model takes the status code and the decoded body as parameters. A body that fails to decode is not modelled.
- An exception raised while the catalog is built ends the program before `process_json_files` runs (extract_cve.py:126-130). The model gives it as KevCatalog.BuildKevIndex's `Err` result. The pipeline takes the catalog of a load that succeeded.
- KEV feed fields whose values are not strings (or `null`) are not modelled. `cveID`, `vendorProject`, `product` and `dateAdded` are each a string or missing.
- `CVESearch` and its network calls are left out. The registry is a deterministic total function from identifier to reply. A network error is the `LookupFailed` reply. Two lookups of the same identifier give the same reply.
- Registry values that are not strings are not modelled. This covers a vendor, product or state that is a number or `null`. A missing `containers`, `cna` or `affected` key is one `KeyError` for the `affected` path.
- The file system and JSON decoding are left out: `os.path.exists`, `os.listdir`, `open`, `json.load`, and the `json.dumps`/`json.loads` round trip. The listing is an optional sequence of `(name, decoded content)` entries in listing order. A file that cannot be read or decoded is `Unreadable` and adds nothing.
- Argument parsing, the global `kev_catalog`, and the messages printed are left out (extract_cve.py:31, 53, 82, 114, 116, 118-130).
- CveScanner.IsDigit: Python's `\d` also matches non-ASCII Unicode digits; the model accepts only `0`-`9`.
- CveScanner.ExtractCve: a message that is truthy and not a string is modelled as a failure without its value. Its exact contents do not matter, because the call always raises.
- Rows.RenderRow: the output is modelled as a sequence of lines, without the newline characters or the file's encoding. Fields are written without escaping, and this is kept as it is: Rows.RenderRowAmbiguous shows the consequence.
- DateSort.SortByDate: `list.sort` sorts `results` in place with Timsort. The model reassigns `results` from the stable insertion sort instead. DateSort.SortByDateUnique shows that every stable sort by date gives the same sequence.
- Occurrences.EnumerateSet: Python's set iteration order is modelled as an arbitrary choice. The contract fixes the multiset of pairs, not their order within one record.
