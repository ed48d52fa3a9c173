/** The per-product extraction loop of webscraping.py (lines 77-125): each product
    element becomes a four-field record, each field looked up on its own and set to
    the sentinel 'N/A' when its element or its pattern is missing. */
module Extract {
  import opened Wrappers
  import opened Text
  import opened Pattern
  import opened Decimals
  import opened Dom

  /** The value of one field of a record: a string, a number, the sentinel 'N/A',
      or the rating label 'Not Rated'. */
  datatype FieldValue = Str(s: string) | Num(d: Decimal) | NA | NotRated

  /** One record. The four keys are always present, in the order the loop assigns them. */
  datatype Product = Product(name: FieldValue, price: FieldValue, rating: FieldValue, availability: FieldValue)

  /** The `ValueError` that `float(literal)` raises; it escapes the loop. */
  datatype ConversionError = ConversionError(literal: string)

  /** The stripped text of each field's element inside one product, `None` where
      `find` found no element. */
  datatype TagTexts = TagTexts(name: Option<string>, price: Option<string>, rating: Option<string>, availability: Option<string>)

  const ProductSel := Selector("div", "product-item")
  const NameSel := Selector("h2", "product-name")
  const PriceSel := Selector("p", "product-price")
  const RatingSel := Selector("div", "product-rating")
  const AvailabilitySel := Selector("span", "availability")

  /** The regex `\$([\d.]+)` as prefix and suffix around the group. */
  const PricePrefix := "$"
  const PriceSuffix := ""
  /** The regex `Rating: ([\d.]+)/5` as prefix and suffix around the group. */
  const RatingPrefix := "Rating: "
  const RatingSuffix := "/5"
  const NotRatedPhrase := "Not Rated"

  // ---------------------------------------------------------------------------
  // Price

  /** A `$` at `i` immediately followed by a digit or a dot. */
  predicate DollarBeforeNumber(s: string, i: int) {
    0 <= i && i + 1 < |s| && s[i] == '$' && IsNumChar(s[i + 1])
  }

  /** `i` is the leftmost `$` that is immediately followed by a digit or a dot. */
  ghost predicate FirstDollarBeforeNumber(s: string, i: int) {
    DollarBeforeNumber(s, i) && forall k :: 0 <= k < i ==> !DollarBeforeNumber(s, k)
  }

  /** The price regex matches at `i` exactly when there is a `$` there followed by a
      digit or a dot. */
  lemma PriceMatchIff(s: string, i: int, len: int)
    ensures MatchesAt(s, PricePrefix, PriceSuffix, i, len) ==> DollarBeforeNumber(s, i)
    ensures DollarBeforeNumber(s, i) ==> MatchesAt(s, PricePrefix, PriceSuffix, i, 1)
  {
    if MatchesAt(s, PricePrefix, PriceSuffix, i, len) {
      assert s[i] == s[i..i + 1][0];
      assert s[i + 1] == s[i + 1..i + 1 + len][0];
    }
    if DollarBeforeNumber(s, i) {
      assert s[i..i + 1] == [s[i]];
      assert s[i + 1..i + 2] == [s[i + 1]];
    }
  }

  /** `re.search(r'\$([\d.]+)', text)` and its `group(1)` (webscraping.py:94-96):
      the whole run of digits and dots after the leftmost `$` that is followed by
      one; `None` when no `$` is. */
  function PriceCapture(text: string): (r: Option<string>)
    ensures r.None? <==> forall i :: !DollarBeforeNumber(text, i)
    ensures r.Some? ==> r.value != [] && AllNum(r.value)
    ensures r.Some? ==> exists i :: FirstDollarBeforeNumber(text, i) && r.value == RunAt(text, i + 1)
  {
    match Search(text, PricePrefix, PriceSuffix)
    case None =>
      assert forall i :: !DollarBeforeNumber(text, i) by {
        forall i {
          PriceMatchIff(text, i, 1);
        }
      }
      None
    case Some(m) =>
      GroupIsMaximalRun(text, PricePrefix, PriceSuffix);
      PriceMatchIff(text, m.start, m.len);
      assert FirstDollarBeforeNumber(text, m.start) by {
        forall k | 0 <= k < m.start
          ensures !DollarBeforeNumber(text, k)
        {
          PriceMatchIff(text, k, 1);
        }
      }
      Some(Group(text, PricePrefix, PriceSuffix, m))
  }

  // ---------------------------------------------------------------------------
  // Rating

  /** At `i`: "Rating: ", a non-empty maximal run of digits and dots, then "/5". */
  predicate RatingAt(s: string, i: int) {
    && 0 <= i && i + |RatingPrefix| <= |s|
    && s[i..i + |RatingPrefix|] == RatingPrefix
    && NumRun(s, i + |RatingPrefix|) >= 1
    && OccursAt(s, RatingSuffix, i + |RatingPrefix| + NumRun(s, i + |RatingPrefix|))
  }

  ghost predicate FirstRatingAt(s: string, i: int) {
    RatingAt(s, i) && forall k :: 0 <= k < i ==> !RatingAt(s, k)
  }

  /** The rating regex matches at `i` exactly when `RatingAt(s, i)`, and then only
      with the whole run as its group: "/" is not a digit or a dot, so backing off
      never helps. */
  lemma RatingMatchIff(s: string, i: int, len: int)
    ensures MatchesAt(s, RatingPrefix, RatingSuffix, i, len) ==>
              RatingAt(s, i) && len == NumRun(s, i + |RatingPrefix|)
    ensures RatingAt(s, i) ==> MatchesAt(s, RatingPrefix, RatingSuffix, i, NumRun(s, i + |RatingPrefix|))
  {
    if 0 <= i && i + |RatingPrefix| <= |s| {
      var g := i + |RatingPrefix|;
      MatchesAtIff(s, RatingPrefix, RatingSuffix, i, len);
      MatchesAtIff(s, RatingPrefix, RatingSuffix, i, NumRun(s, g));
      RunInside(s, g);
      if MatchesAt(s, RatingPrefix, RatingSuffix, i, len) {
        assert s[g + len] == s[g + len..g + len + |RatingSuffix|][0];
      }
    }
  }

  /** `re.search(r'Rating: ([\d.]+)/5', text)` and its `group(1)`
      (webscraping.py:108-110): the run after the leftmost qualifying "Rating: ". */
  function RatingCapture(text: string): (r: Option<string>)
    ensures r.None? <==> forall i :: !RatingAt(text, i)
    ensures r.Some? ==> r.value != [] && AllNum(r.value)
    ensures r.Some? ==> exists i :: FirstRatingAt(text, i) && r.value == RunAt(text, i + |RatingPrefix|)
  {
    match Search(text, RatingPrefix, RatingSuffix)
    case None =>
      assert forall i :: !RatingAt(text, i) by {
        forall i {
          RatingMatchIff(text, i, 1);
        }
      }
      None
    case Some(m) =>
      RatingMatchIff(text, m.start, m.len);
      assert FirstRatingAt(text, m.start) by {
        forall k | 0 <= k < m.start
          ensures !RatingAt(text, k)
        {
          RatingMatchIff(text, k, 1);
        }
      }
      Some(Group(text, RatingPrefix, RatingSuffix, m))
  }

  // ---------------------------------------------------------------------------
  // Fields

  /** `float(capture)`: a number, or the `ValueError` Python raises. */
  function ToNumber(capture: string): (r: Result<FieldValue, ConversionError>)
    ensures r.Ok? <==> IsDecimalLiteral(capture)
    ensures r.Ok? ==> r.value.Num? && ParseDecimal(capture) == Some(r.value.d)
    ensures r.Err? ==> r.error == ConversionError(capture)
  {
    match ParseDecimal(capture)
    case Some(d) => Ok(Num(d))
    case None => Err(ConversionError(capture))
  }

  /** `name` and `availability` (webscraping.py:82-86, 119-123): the text verbatim,
      or 'N/A' when the element is missing. */
  function IdentityField(text: Option<string>): (v: FieldValue)
    ensures v == NA <==> text.None?
    ensures text.Some? ==> v == Str(text.value)
  {
    match text
    case Some(t) => Str(t)
    case None => NA
  }

  /** The value the script stores under a key: a Python `str` or `float`. The
      sentinels 'N/A' and 'Not Rated' are plain strings there, and a float keeps
      only the number, not the digits it was written with. */
  datatype PyValue = PyStr(s: string) | PyFloat(x: real)

  function AsPython(v: FieldValue): (p: PyValue) {
    match v
    case Str(s) => PyStr(s)
    case Num(d) => PyFloat(ToReal(d))
    case NA => PyStr("N/A")
    case NotRated => PyStr("Not Rated")
  }

  /** What the script stores for `name` and `availability`: the element's text, or
      the string 'N/A' when the element is missing. */
  lemma IdentityFieldPythonValue(text: Option<string>)
    ensures AsPython(IdentityField(text)) == PyStr(if text.Some? then text.value else "N/A")
    ensures AsPython(IdentityField(text)) == AsPython(IdentityField(None)) <==> text.None? || text.value == "N/A"
  {
  }

  /** The tagged values keep apart what the script's values merge: a text that
      reads 'N/A' or 'Not Rated' is the same Python string as the sentinel. */
  lemma SentinelsMerge()
    ensures IdentityField(Some("N/A")) != IdentityField(None)
    ensures AsPython(IdentityField(Some("N/A"))) == AsPython(IdentityField(None))
    ensures Str("Not Rated") != NotRated && AsPython(Str("Not Rated")) == AsPython(NotRated)
  {
  }

  /** Two captures that `float` accepts have the same exact value exactly when
      their digit values, each scaled by the other's fraction length, agree: the
      digits they were written with do not matter, so "4.5" and "4.50" merge. */
  lemma SameStoredNumber(x: string, y: string)
    requires IsDecimalLiteral(x) && IsDecimalLiteral(y)
    ensures AsPython(ToNumber(x).value) == AsPython(ToNumber(y).value)
            <==> DigitsToNat(Undotted(x)) * Pow10(FractionLength(y)) == DigitsToNat(Undotted(y)) * Pow10(FractionLength(x))
  {
    RatioIff(DigitsToNat(Undotted(x)), DigitsToNat(Undotted(y)), Pow10(FractionLength(x)), Pow10(FractionLength(y)));
  }

  lemma TrailingZeroMerges()
    ensures Num(Decimal(45, 1)) != Num(Decimal(450, 2))
    ensures AsPython(Num(Decimal(45, 1))) == AsPython(Num(Decimal(450, 2)))
  {
    assert Pow10(1) == 10 && Pow10(2) == 100;
  }

  /** `price` (webscraping.py:90-100): 'N/A' when the element is missing or holds no
      `$` followed by a digit or dot; otherwise `float` of the maximal run after the
      leftmost such `$`, which raises when that run is not a decimal literal. */
  function PriceField(text: Option<string>): (r: Result<FieldValue, ConversionError>)
    ensures text.None? ==> r == Ok(NA)
    ensures text.Some? ==> (r == Ok(NA) <==> forall i :: !DollarBeforeNumber(text.value, i))
    ensures r.Ok? ==> r.value.NA? || r.value.Num?
    ensures r.Ok? && r.value.Num? ==>
              text.Some? && exists i :: FirstDollarBeforeNumber(text.value, i) && ParseDecimal(RunAt(text.value, i + 1)) == Some(r.value.d)
    ensures r.Err? ==>
              text.Some? && exists i :: FirstDollarBeforeNumber(text.value, i) && r.error.literal == RunAt(text.value, i + 1)
    ensures r.Err? ==> !IsDecimalLiteral(r.error.literal)
  {
    match text
    case None => Ok(NA)
    case Some(t) =>
      match PriceCapture(t)
      case None => Ok(NA)
      case Some(c) => ToNumber(c)
  }

  /** `rating` (webscraping.py:104-116): a numeric match wins; failing that, the
      phrase "Not Rated" anywhere gives 'Not Rated'; otherwise, and when the element
      is missing, 'N/A'. */
  function RatingField(text: Option<string>): (r: Result<FieldValue, ConversionError>)
    ensures text.None? ==> r == Ok(NA)
    ensures text.Some? && (exists i :: RatingAt(text.value, i)) ==> r.Err? || r.value.Num?
    ensures text.Some? && (forall i :: !RatingAt(text.value, i)) ==>
              r == (if exists k :: OccursAt(text.value, NotRatedPhrase, k) then Ok(NotRated) else Ok(NA))
    ensures r.Ok? && r.value.Num? ==>
              text.Some? && exists i :: FirstRatingAt(text.value, i) && ParseDecimal(RunAt(text.value, i + |RatingPrefix|)) == Some(r.value.d)
    ensures r.Err? ==>
              text.Some? && exists i :: FirstRatingAt(text.value, i) && r.error.literal == RunAt(text.value, i + |RatingPrefix|)
    ensures r.Err? ==> !IsDecimalLiteral(r.error.literal)
  {
    match text
    case None => Ok(NA)
    case Some(t) =>
      match RatingCapture(t)
      case Some(c) => ToNumber(c)
      case None => if Contains(t, NotRatedPhrase) then Ok(NotRated) else Ok(NA)
  }

  // ---------------------------------------------------------------------------
  // Records

  /** The body of the loop for one product (webscraping.py:78-123). The fields are
      filled in source order, so a failing `float` on the price is what escapes even
      when the rating would fail too. */
  function ExtractProduct(t: TagTexts): (r: Result<Product, ConversionError>)
    ensures r.Ok? <==> PriceField(t.price).Ok? && RatingField(t.rating).Ok?
    ensures PriceField(t.price).Err? ==> r.Err? && r.error == PriceField(t.price).error
    ensures PriceField(t.price).Ok? && RatingField(t.rating).Err? ==> r.Err? && r.error == RatingField(t.rating).error
    ensures r.Ok? ==> r.value.name == IdentityField(t.name) && r.value.availability == IdentityField(t.availability)
    ensures r.Ok? ==> r.value.price == PriceField(t.price).value && r.value.rating == RatingField(t.rating).value
  {
    var price :- PriceField(t.price);
    var rating :- RatingField(t.rating);
    Ok(Product(IdentityField(t.name), price, rating, IdentityField(t.availability)))
  }

  /** Each field depends on its own element only: two products whose elements for a
      field agree get the same value for it, whatever the other elements hold. */
  lemma FieldIndependence(t: TagTexts, u: TagTexts)
    requires ExtractProduct(t).Ok? && ExtractProduct(u).Ok?
    ensures t.name == u.name ==> ExtractProduct(t).value.name == ExtractProduct(u).value.name
    ensures t.price == u.price ==> ExtractProduct(t).value.price == ExtractProduct(u).value.price
    ensures t.rating == u.rating ==> ExtractProduct(t).value.rating == ExtractProduct(u).value.rating
    ensures t.availability == u.availability ==> ExtractProduct(t).value.availability == ExtractProduct(u).value.availability
  {
  }

  /** Removing one field's element turns that field into 'N/A' and leaves the other
      three exactly as they were; it never makes a record fail. */
  lemma MissingElementOnlyAffectsItsField(t: TagTexts)
    requires ExtractProduct(t).Ok?
    ensures ExtractProduct(t.(name := None)) == Ok(ExtractProduct(t).value.(name := NA))
    ensures ExtractProduct(t.(price := None)) == Ok(ExtractProduct(t).value.(price := NA))
    ensures ExtractProduct(t.(rating := None)) == Ok(ExtractProduct(t).value.(rating := NA))
    ensures ExtractProduct(t.(availability := None)) == Ok(ExtractProduct(t).value.(availability := NA))
  {
  }

  /** A product with none of its four elements is still a record, all 'N/A'. */
  lemma EmptyProduct()
    ensures ExtractProduct(TagTexts(None, None, None, None)) == Ok(Product(NA, NA, NA, NA))
  {
  }

  // ---------------------------------------------------------------------------
  // Lookups in the tree

  /** `tag = item.find(...)` then `tag.get_text(strip=True)` when `tag` is not `None`.
      A bs4 tag is always truthy, so `if tag:` only tests for `None`. */
  function TagText(item: Node, sel: Selector): (r: Option<string>)
    ensures r.None? <==> FindAll(item, sel) == []
    ensures r.Some? ==> r.value == StrippedText(FindAll(item, sel)[0])
    ensures r.Some? ==> NoSurroundingSpace(r.value)
  {
    FindIsFirstOfFindAll(item, sel);
    match Find(item, sel)
    case Some(tag) => Some(StrippedText(tag))
    case None => None
  }

  function LookupTags(item: Node): (t: TagTexts) {
    TagTexts(TagText(item, NameSel), TagText(item, PriceSel), TagText(item, RatingSel), TagText(item, AvailabilitySel))
  }

  /** The record built for one product element, or the error its `float` raises. */
  function ProductRecord(item: Node): (r: Result<Product, ConversionError>) {
    ExtractProduct(LookupTags(item))
  }

  /** `name` and `availability` are the stripped text of the first matching element,
      verbatim, and 'N/A' exactly when there is no such element. */
  lemma IdentityFieldsVerbatim(item: Node)
    requires ProductRecord(item).Ok?
    ensures var p := ProductRecord(item).value;
            && (p.name == NA <==> Find(item, NameSel).None?)
            && (Find(item, NameSel).Some? ==> p.name == Str(StrippedText(Find(item, NameSel).value)))
            && (p.availability == NA <==> Find(item, AvailabilitySel).None?)
            && (Find(item, AvailabilitySel).Some? ==> p.availability == Str(StrippedText(Find(item, AvailabilitySel).value)))
            && (p.name.Str? ==> NoSurroundingSpace(p.name.s))
            && (p.availability.Str? ==> NoSurroundingSpace(p.availability.s))
  {
    FindIsFirstOfFindAll(item, NameSel);
    FindIsFirstOfFindAll(item, AvailabilitySel);
  }

  /** A loop that appends one value per step and is ended by the first exception,
      as a fold over the steps' outcomes: the values so far, then the next one. */
  function Collect<T, E>(rs: seq<Result<T, E>>): (r: Result<seq<T>, E>) {
    if rs == [] then Ok([])
    else
      var init :- Collect(rs[..|rs| - 1]);
      var x :- rs[|rs| - 1];
      Ok(init + [x])
  }

  /** The loop finishes exactly when no step raises. */
  lemma {:induction false} CollectOkIff<T, E>(rs: seq<Result<T, E>>)
    ensures Collect(rs).Ok? <==> forall k :: 0 <= k < |rs| ==> rs[k].Ok?
  {
    if rs != [] {
      var init := rs[..|rs| - 1];
      CollectOkIff(init);
      assert forall k :: 0 <= k < |init| ==> init[k] == rs[k];
    }
  }

  /** A finished loop holds one value per step, in order. */
  lemma {:induction false} CollectInOrder<T, E>(rs: seq<Result<T, E>>)
    requires Collect(rs).Ok?
    ensures |Collect(rs).value| == |rs|
    ensures forall k :: 0 <= k < |rs| ==> rs[k] == Ok(Collect(rs).value[k])
  {
    if rs != [] {
      var init := rs[..|rs| - 1];
      CollectInOrder(init);
      assert forall k :: 0 <= k < |init| ==> init[k] == rs[k];
    }
  }

  /** A loop that raises passes on the exception of the first step that raises. */
  lemma {:induction false} CollectFirstError<T, E>(rs: seq<Result<T, E>>)
    requires Collect(rs).Err?
    ensures exists k :: 0 <= k < |rs| && rs[k] == Err(Collect(rs).error)
                        && forall j :: 0 <= j < k ==> rs[j].Ok?
  {
    var init := rs[..|rs| - 1];
    assert forall k :: 0 <= k < |init| ==> init[k] == rs[k];
    if Collect(init).Err? {
      CollectFirstError(init);
      var k :| 0 <= k < |init| && init[k] == Err(Collect(init).error)
               && forall j :: 0 <= j < k ==> init[j].Ok?;
      assert rs[k] == Err(Collect(rs).error);
    } else {
      CollectOkIff(init);
      assert rs[|rs| - 1] == Err(Collect(rs).error);
    }
  }

  /** Once a step raises, the later steps change nothing. */
  lemma {:induction false} CollectStopsAtError<T, E>(rs: seq<Result<T, E>>, i: nat)
    requires i <= |rs|
    requires Collect(rs[..i]).Err?
    ensures Collect(rs) == Collect(rs[..i])
    decreases |rs| - i
  {
    if i < |rs| {
      CollectStep(rs, i);
      CollectStopsAtError(rs, i + 1);
    } else {
      assert rs[..i] == rs;
    }
  }

  /** One more step of the loop. */
  lemma CollectStep<T, E>(rs: seq<Result<T, E>>, i: nat)
    requires i < |rs|
    ensures Collect(rs[..i + 1]) == (match Collect(rs[..i])
                                     case Err(e) => Err(e)
                                     case Ok(init) => (match rs[i]
                                                       case Err(e) => Err(e)
                                                       case Ok(x) => Ok(init + [x])))
  {
    var next := rs[..i + 1];
    assert next[..|next| - 1] == rs[..i];
  }

  /** Each product element's record or error, in order. */
  function Outcomes(items: seq<Node>): (rs: seq<Result<Product, ConversionError>>)
    ensures |rs| == |items|
    ensures forall k :: 0 <= k < |items| ==> rs[k] == ProductRecord(items[k])
  {
    seq(|items|, k requires 0 <= k < |items| => ProductRecord(items[k]))
  }

  /** The loop of webscraping.py:77-125 as a fold over the product elements. */
  function Records(items: seq<Node>): (r: Result<seq<Product>, ConversionError>) {
    Collect(Outcomes(items))
  }

  /** What the loop leaves behind: one record per product element, in order, when
      no `float` raises; otherwise the error of the first element whose `float` does. */
  lemma RecordsMeaning(items: seq<Node>)
    ensures Records(items).Ok? <==> forall k :: 0 <= k < |items| ==> ProductRecord(items[k]).Ok?
    ensures Records(items).Ok? ==> |Records(items).value| == |items|
    ensures Records(items).Ok? ==> forall k :: 0 <= k < |items| ==> ProductRecord(items[k]) == Ok(Records(items).value[k])
    ensures Records(items).Err? ==> exists k :: 0 <= k < |items| && ProductRecord(items[k]) == Err(Records(items).error)
                                              && forall j :: 0 <= j < k ==> ProductRecord(items[j]).Ok?
  {
    var rs := Outcomes(items);
    CollectOkIff(rs);
    if Collect(rs).Ok? {
      CollectInOrder(rs);
    } else {
      CollectFirstError(rs);
    }
  }

  /** When every product element's record builds, the loop gives exactly those
      records, in order. */
  lemma RecordsAllOk(items: seq<Node>, want: seq<Product>)
    requires |items| == |want|
    requires forall k :: 0 <= k < |items| ==> ProductRecord(items[k]) == Ok(want[k])
    ensures Records(items) == Ok(want)
  {
    RecordsMeaning(items);
    assert forall k :: 0 <= k < |items| ==> ProductRecord(items[k]).Ok?;
    var got := Records(items).value;
    assert forall k :: 0 <= k < |want| ==> got[k] == want[k];
    assert got == want;
  }

  /** The loop of webscraping.py:77-125 over the product elements, appending one
      record per element; a `ValueError` from `float` ends the loop and is passed on.
      It computes the fold `Records`. */
  method ExtractAll(items: seq<Node>) returns (r: Result<seq<Product>, ConversionError>)
    ensures r == Records(items)
  {
    ghost var rs := Outcomes(items);
    var records: seq<Product> := [];
    var i := 0;
    while i < |items|
      invariant 0 <= i <= |items|
      invariant Collect(rs[..i]) == Ok(records)
    {
      CollectStep(rs, i);
      match ProductRecord(items[i])
      case Err(e) =>
        CollectStopsAtError(rs, i + 1);
        return Err(e);
      case Ok(p) =>
        records := records + [p];
      i := i + 1;
    }
    assert rs[..i] == rs;
    r := Ok(records);
  }

  /** The whole extraction (webscraping.py:72-125): find every product element of the
      document in document order and build its record. */
  method Scrape(doc: Node) returns (r: Result<seq<Product>, ConversionError>)
    ensures r == Records(FindAll(doc, ProductSel))
    ensures FindAll(doc, ProductSel) == [] ==> r == Ok([])
  {
    r := ExtractAll(FindAll(doc, ProductSel));
  }
}
