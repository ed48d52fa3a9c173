# Product extraction loop of a demonstration web scraper

This project models the record extractor of `webscraping.py`. The script looks up
every `<div class="product-item">` in a parsed HTML document. Each product becomes
a record with the keys `name`, `price`, `rating` and `availability`. Each field is
looked up on its own:

- `name` and `availability` are the element's stripped text.
- `price` is the number after the leftmost `$` that is followed by a digit or dot.
- `rating` is the number in `Rating: <n>/5`. When that is missing, the text
  `Not Rated` gives the label `'Not Rated'`.
- A missing element, or a missing pattern, gives the sentinel `'N/A'`.

Modules:

- `Wrappers`: `Option` and `Result`.
- `Text`: Python's `str.strip()`, the `[\d.]` character class and the substring
  test `in`.
- `Pattern`: `re.search` for the regex shape `prefix([\d.]+)suffix`. It is stated
  declaratively (the leftmost start, then the longest group) and proved for a
  recursive scanner.
- `Decimals`: `float()` on a digit-and-dot capture. The number is kept exactly as a
  mantissa and a decimal scale, and a renderer is proved to be a right inverse:
  parsing a rendering gives the decimal back.
- `Dom`: a minimal element tree with `find_all`, `find` and `get_text(strip=True)`.
  `find` is proved to return the first element of `find_all`, and `find_all` is
  proved to select from the pre-order walk.
- `Extract`: the field coercions, one record, and the loop over all products (both
  as a fold and as a method with a loop).
- `Fixture`: the document embedded in the script as a tree, the examples for each
  coercion, and the four expected records.

Three behaviours of the code are easy to miss, and the model keeps them:

- **Malformed captures raise.** `float()` at webscraping.py:96 and webscraping.py:110
  is called on the raw capture. A capture such as `"."` or `"1.2.3"` makes it raise
  `ValueError`. Nothing catches the exception, so it ends the loop and the script.
  The model returns `Err(ConversionError(capture))` and stops the batch at the
  first product whose conversion raises.
- **The rating needs its prefix.** The regex at webscraping.py:108 is
  `Rating: ([\d.]+)/5`. A bare `4.5/5` is not matched, so `Rating: ` is required.
- **Any digit/dot run is captured.** The class `[\d.]+` at webscraping.py:94 and
  webscraping.py:108 takes any run of digits and dots, such as `1.2.3` or `..`. It
  is not limited to numbers with one optional decimal point.

## Model

| member | source | states |
|---|---|---|
| Text.Strip | webscraping.py:84 | the stripped text has no whitespace at either end, and the input is that text padded only with whitespace |
| Text.StripUnique | webscraping.py:84 | those two properties fix the result: any whitespace-free-ended string that the input pads is the stripped text |
| Text.StripIdempotent | webscraping.py:84 | stripping twice gives the same text as stripping once |
| Text.Contains | webscraping.py:111 | `t in s` holds exactly when `t` occurs in `s` at some offset |
| Pattern.Search | webscraping.py:94 | `re.search` for `prefix([\d.]+)suffix` finds nothing exactly when no start and group length match; otherwise it finds a real match, no match starts further left, and no longer group matches at that start |
| Pattern.GroupIsMaximalRun | webscraping.py:94 | when the suffix cannot begin with a digit or dot, the captured group is the whole maximal digit/dot run after the prefix |
| Decimals.ParseDecimal | webscraping.py:96 | `float` of a digit/dot string succeeds exactly when the string has at most one dot and at least one digit; the value is the digits read as one integer, scaled by the number of digits after the dot |
| Decimals.RenderRoundTrip | webscraping.py:96 | parsing the rendering of any decimal gives back the same mantissa and scale |
| Dom.SelectSpec | webscraping.py:72 | filtering a node list by a selector keeps exactly the nodes that match it |
| Dom.FindAllMatchingDescendants | webscraping.py:72 | an element is returned by `find_all` exactly when it is a descendant that matches the tag and the class |
| Dom.FindAllInDocumentOrder | webscraping.py:72 | `find_all` returns exactly the matching descendants, in pre-order |
| Dom.Find | webscraping.py:82 | an element `find` returns matches the tag and the class |
| Dom.FindIsFirstOfFindAll | webscraping.py:82 | `find` returns the first element of `find_all`, and nothing exactly when `find_all` is empty |
| Dom.StrippedText | webscraping.py:84 | `get_text(strip=True)` has no whitespace at either end |
| Dom.SingleTextStripped | webscraping.py:84 | an element holding one text node gives that text stripped, inner spaces kept |
| Extract.PriceCapture | webscraping.py:94-95 | no capture exactly when no `$` is followed by a digit or dot; otherwise the capture is non-empty, made only of digits and dots, and is the maximal run after the leftmost such `$` |
| Extract.RatingCapture | webscraping.py:108-109 | no capture exactly when no `Rating: ` is followed by a non-empty digit/dot run and `/5`; otherwise the capture is that run after the leftmost such `Rating: ` |
| Extract.ToNumber | webscraping.py:96 | converting a capture succeeds exactly when it is a decimal literal, and otherwise raises an error that names the capture |
| Extract.IdentityFieldPythonValue | webscraping.py:82-86 | the script stores the element's stripped text, or the string 'N/A' when the element is missing, so a text reading 'N/A' is stored like a missing element |
| Extract.SameStoredNumber | webscraping.py:96 | two captures that `float` accepts have the same exact value exactly when their digit values, each scaled by ten to the other's fraction length, agree; so "4.5" and "4.50" are stored alike |
| Extract.PriceField | webscraping.py:90-100 | 'N/A' when the element is missing, and exactly when its text has no `$` followed by a digit or dot; otherwise the number parsed from the run after the leftmost such `$`, or the conversion error for that run |
| Extract.RatingField | webscraping.py:104-116 | 'N/A' when the element is missing; a numeric match wins over "Not Rated", giving a number or a conversion error; without one, 'Not Rated' exactly when the phrase occurs, and 'N/A' otherwise |
| Extract.ExtractProduct | webscraping.py:78-123 | the record is built exactly when neither conversion raises; the price's error takes precedence over the rating's; each of the four keys holds its own field's value |
| Extract.FieldIndependence | webscraping.py:82-123 | two products whose elements agree for a field get the same value for that field, whatever their other elements hold |
| Extract.MissingElementOnlyAffectsItsField | webscraping.py:82-123 | removing one field's element makes that field 'N/A', leaves the other three unchanged, and never makes the record fail |
| Extract.EmptyProduct | webscraping.py:78-123 | a product with none of the four elements still gives a record, with all four fields 'N/A' |
| Extract.TagText | webscraping.py:82-84 | the looked-up text is missing exactly when no descendant matches; otherwise it is the stripped text of the first matching descendant in document order, with no whitespace at either end |
| Extract.IdentityFieldsVerbatim | webscraping.py:82-123 | `name` and `availability` hold the sentinel NA exactly when `find` finds nothing, and otherwise that element's stripped text; the stored Python string merges a text 'N/A' with the sentinel, see Extract.IdentityField under Left out |
| Extract.CollectOkIff | webscraping.py:77-125 | a loop whose steps may raise completes exactly when no step raises |
| Extract.CollectInOrder | webscraping.py:77-125 | a completed loop holds one value per step, in step order |
| Extract.CollectFirstError | webscraping.py:77-125 | a loop that raises passes on the error of the first step that raises, and every earlier step succeeded |
| Extract.CollectStopsAtError | webscraping.py:77-125 | once a step has raised, later steps change nothing |
| Extract.RecordsMeaning | webscraping.py:77-125 | the loop gives one record per product element, in document order, when no conversion raises; otherwise it gives the error of the first product whose conversion raises |
| Extract.RecordsAllOk | webscraping.py:77-125 | when every product element's record builds, the loop gives exactly those records, in the same order |
| Extract.ExtractAll | webscraping.py:77-125 | the imperative loop that appends records and stops at the first error computes the fold `Records` |
| Extract.Scrape | webscraping.py:72-125 | the extraction applies the loop to the product elements in document order; a document with no product element gives an empty list |
| Fixture.PriceOfLaptop | webscraping.py:29 | "Price: $1200.99" gives the exact number 1200.99 |
| Fixture.PriceToBeDecided | webscraping.py:94-98 | "Price: TBD" gives 'N/A' |
| Fixture.PriceNotADecimal | webscraping.py:96 | "Price: $1.2.3" raises on the capture "1.2.3" instead of giving 'N/A' |
| Fixture.RatingNumeric | webscraping.py:108-110 | "Rating: 4.5/5" gives the number 4.5 |
| Fixture.RatingNotRated | webscraping.py:111-112 | "Rating: Not Rated" gives 'Not Rated' |
| Fixture.RatingUnknown | webscraping.py:113-114 | "Rating: ???" gives 'N/A' |
| Fixture.FixtureItems | webscraping.py:26-54 | the embedded document holds exactly the four product elements, in document order |
| Fixture.LaptopRecord | webscraping.py:27-32 | the first product's record is {Laptop Pro X, 1200.99, 4.5, In Stock} |
| Fixture.HubRecord | webscraping.py:48-53 | the fourth product's record is {USB-C Hub Elite, 49.99, 'Not Rated', Out of Stock} |
| Fixture.ScrapeFixture | webscraping.py:72-125 | extracting from the embedded document gives its four records, in order |

## Left out

- Parsing HTML text into a tree (webscraping.py:69) is library code. The model
  starts from an already parsed `Dom.Node`. The fixture tree leaves out text that
  is only whitespace, inside products and between them, and the `<!DOCTYPE html>`
  declaration (webscraping.py:14). Whitespace-only text matches no selector and
  never sits under a field element, so no `find` and no `get_text` of a field
  sees it; the declaration matches no selector either.
- Extract.IdentityField: the tagged `FieldValue` keeps `Str("N/A")` apart from the
  sentinel `NA`, and `Str("Not Rated")` apart from `NotRated`. In the script both
  pairs are the same Python string. Extract.AsPython maps a value to what the
  script stores, and Extract.SentinelsMerge states where the two coincide.
- Dom.Find and Dom.FindAll model the library's class test as "the class list
  contains the class". The library also accepts the whole class attribute string
  as the class. The two agree for the single-class elements in the script.
- Dom.StrippedText models `get_text(strip=True)` as each text piece stripped and
  the pieces joined with no separator. Comments and other special strings are not
  modelled.
- Text.IsSpace uses the whitespace set of Python's `str.isspace` as a fixed
  character list, and Text.IsDigit accepts only ASCII digits. Python's `\d` and
  `float` also accept other Unicode decimal digits, which are not modelled.
- Decimals.ParseDecimal gives an exact decimal rather than the nearest binary
  double, because IEEE floating point is not modelled. The mantissa and scale are
  not normalised, so "4.5" and "4.50", or "75" and "75.00", give different
  `Decimal`s and different `FieldValue`s, where the script's floats are equal.
  Extract.AsPython compares numbers by value (Extract.SameStoredNumber,
  Extract.TrailingZeroMerges).
- Extract.SameStoredNumber compares exact values. The script's floats also merge
  literals that round to the same double, such as "0.1" and
  "0.10000000000000000001", so only its "if" direction holds of the script.
- The tabular stage (webscraping.py:130-150) is not modelled. It covers the
  DataFrame build, `to_numeric` coercion, the price filter and the mean rating.
  It is library use and floating-point aggregation.
- The commented-out network fetch (webscraping.py:6-10) is not modelled, because
  it is I/O.
- The `print` calls (webscraping.py:63-64, 76, 126 and 132-150) are not modelled,
  because they are presentation only.
- The script always uses the same four field selectors and two regexes. The model
  fixes them as constants instead of taking a list of field specifications as a
  parameter.
- Calling the extraction twice on the same document trivially gives the same
  result, because every operation is a pure function. No lemma states this.
