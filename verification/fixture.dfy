/** The embedded document of webscraping.py (lines 13-61) as a tree, and the field
    coercions worked through on the texts of the script's products and on a few
    further texts that exercise the other branches (no number, a malformed number,
    an unknown rating). */
module Fixture {
  import opened Wrappers
  import opened Text
  import opened Pattern
  import opened Decimals
  import opened Dom
  import opened Extract

  // ---------------------------------------------------------------------------
  // Reasoning steps for concrete texts

  /** The maximal run at `k` ends at `e` when everything in between is a digit or a
      dot and the character at `e` (if any) is not. */
  lemma RunEndsAt(s: string, k: nat, e: nat)
    requires k <= e <= |s|
    requires AllNum(s[k..e])
    requires e == |s| || !IsNumChar(s[e])
    ensures RunAt(s, k) == s[k..e]
  {
    RunBound(s, k, e - k);
    RunInside(s, k);
  }

  /** Knowing the leftmost `$` before a number fixes the price capture. */
  lemma PriceCaptureAt(s: string, i: nat)
    requires FirstDollarBeforeNumber(s, i)
    ensures PriceCapture(s) == Some(RunAt(s, i + 1))
  {
    assert DollarBeforeNumber(s, i);
    var j :| FirstDollarBeforeNumber(s, j) && PriceCapture(s).value == RunAt(s, j + 1);
    assert FirstDollarBeforeNumber(s, j);
    assert DollarBeforeNumber(s, j);
    assert j == i;
  }

  /** Knowing the leftmost rating match fixes the rating capture. */
  lemma RatingCaptureAt(s: string, i: nat)
    requires FirstRatingAt(s, i)
    ensures RatingCapture(s) == Some(RunAt(s, i + |RatingPrefix|))
  {
    assert RatingAt(s, i);
    var j :| FirstRatingAt(s, j) && RatingCapture(s).value == RunAt(s, j + |RatingPrefix|);
    assert FirstRatingAt(s, j);
    assert RatingAt(s, j);
    assert j == i;
  }

  /** "Not Rated" can only start at an 'N'. */
  lemma PhraseStartsWithN(s: string, k: int)
    requires OccursAt(s, NotRatedPhrase, k)
    ensures s[k] == 'N'
  {
    assert s[k] == s[k..k + |NotRatedPhrase|][0];
  }

  // ---------------------------------------------------------------------------
  // Coercion examples

  lemma LaptopDigits()
    ensures DigitsToNat("120099") == 120099
  {
    assert "120099"[..5] == "12009" && "12009"[..4] == "1200" && "1200"[..3] == "120";
    assert "120"[..2] == "12" && "12"[..1] == "1" && "1"[..0] == [];
  }

  lemma ParseLaptopPrice()
    ensures ParseDecimal("1200.99") == Some(Decimal(120099, 2))
  {
    LaptopDigits();
    assert "1200" + "." + "99" == "1200.99";
    assert "1200" + "99" == "120099";
    ParseDotted("1200", "99", Decimal(120099, 2));
  }

  lemma LaptopPriceStart()
    ensures FirstDollarBeforeNumber("Price: $1200.99", 7)
  {
  }

  lemma LaptopPriceRun()
    ensures RunAt("Price: $1200.99", 8) == "1200.99"
  {
    var s := "Price: $1200.99";
    assert s[8..15] == "1200.99";
    RunEndsAt(s, 8, 15);
  }

  lemma LaptopPriceCapture()
    ensures PriceCapture("Price: $1200.99") == Some("1200.99")
  {
    LaptopPriceStart();
    PriceCaptureAt("Price: $1200.99", 7);
    LaptopPriceRun();
  }

  /** "Price: $1200.99" gives the number 1200.99 (webscraping.py:29). */
  lemma PriceOfLaptop()
    ensures PriceField(Some("Price: $1200.99")) == Ok(Num(Decimal(120099, 2)))
    ensures ToReal(Decimal(120099, 2)) == 1200.99
  {
    LaptopPriceCapture();
    ParseLaptopPrice();
    assert Pow10(2) == 100;
  }

  /** A text without a `$` has no price. */
  lemma NoDollarNoPrice(s: string)
    requires '$' !in s
    ensures PriceField(Some(s)) == Ok(NA)
  {
  }

  /** "Price: TBD" gives 'N/A'. */
  lemma PriceToBeDecided()
    ensures PriceField(Some("Price: TBD")) == Ok(NA)
  {
    NoDollarNoPrice("Price: TBD");
  }

  /** "Price: $" followed by a maximal run of digits and dots captures that run. */
  lemma PriceCaptureAfterLabel(s: string, e: nat)
    requires 8 < e <= |s| && s[..8] == "Price: $"
    requires AllNum(s[8..e]) && (e == |s| || !IsNumChar(s[e]))
    ensures PriceCapture(s) == Some(s[8..e])
  {
    assert forall k :: 0 <= k < 8 ==> s[k] == s[..8][k];
    assert s[8] == s[8..e][0];
    assert FirstDollarBeforeNumber(s, 7);
    PriceCaptureAt(s, 7);
    RunEndsAt(s, 8, e);
  }

  lemma TwoDots()
    ensures !IsDecimalLiteral("1.2.3")
  {
    assert DotCount("1.2.3") == 2 by {
      assert "1.2.3"[..4] == "1.2.";
      assert "1.2."[..3] == "1.2";
      assert "1.2"[..2] == "1.";
      assert "1."[..1] == "1";
      assert "1"[..0] == "";
    }
  }

  /** `float("1.2.3")` raises, and the error escapes instead of becoming 'N/A'. */
  lemma PriceNotADecimal()
    ensures PriceField(Some("Price: $1.2.3")) == Err(ConversionError("1.2.3"))
  {
    var s := "Price: $1.2.3";
    assert s[..8] == "Price: $" && s[8..13] == "1.2.3";
    PriceCaptureAfterLabel(s, 13);
    TwoDots();
  }

  lemma ParseRating45()
    ensures ParseDecimal("4.5") == Some(Decimal(45, 1))
  {
    DottedLiteral("4", "5");
    assert "4" + "." + "5" == "4.5";
    assert "4" + "5" == "45";
    assert DigitsToNat("4") == 4;
  }

  /** "Rating: 4.5/5" gives the number 4.5 (webscraping.py:30). */
  lemma RatingNumeric()
    ensures RatingField(Some("Rating: 4.5/5")) == Ok(Num(Decimal(45, 1)))
  {
    var s := "Rating: 4.5/5";
    assert s[8..11] == "4.5";
    RunEndsAt(s, 8, 11);
    assert s[11..13] == RatingSuffix;
    assert s[0..8] == RatingPrefix;
    assert FirstRatingAt(s, 0);
    RatingCaptureAt(s, 0);
    ParseRating45();
  }

  /** A text with no digit and no dot has no numeric rating. */
  lemma NoRunNoRating(s: string)
    requires forall c :: c in s ==> !IsNumChar(c)
    ensures forall i :: !RatingAt(s, i)
  {
  }

  /** A text with no 'N' does not contain "Not Rated". */
  lemma NoNNoPhrase(s: string)
    requires 'N' !in s
    ensures !Contains(s, NotRatedPhrase)
  {
    forall k | OccursAt(s, NotRatedPhrase, k)
      ensures false
    {
      PhraseStartsWithN(s, k);
    }
  }

  /** "Rating: Not Rated" gives 'Not Rated' (webscraping.py:51). */
  lemma RatingNotRated()
    ensures RatingField(Some("Rating: Not Rated")) == Ok(NotRated)
  {
    var s := "Rating: Not Rated";
    NoRunNoRating(s);
    assert s[8..17] == NotRatedPhrase;
    assert OccursAt(s, NotRatedPhrase, 8);
  }

  /** "Rating: ???" gives 'N/A'. */
  lemma RatingUnknown()
    ensures RatingField(Some("Rating: ???")) == Ok(NA)
  {
    var s := "Rating: ???";
    NoRunNoRating(s);
    NoNNoPhrase(s);
  }

  /** "Price: $" followed by a decimal literal gives that literal's number. */
  lemma DollarPrice(s: string)
    requires |s| > 8 && s[..8] == "Price: $" && IsDecimalLiteral(s[8..])
    ensures PriceField(Some(s)) == Ok(Num(ParseDecimal(s[8..]).value))
  {
    assert s[8..|s|] == s[8..];
    PriceCaptureAfterLabel(s, |s|);
  }

  /** "Rating: " followed by a decimal literal and "/5" gives that literal's number. */
  lemma RatingOutOfFive(s: string, e: nat)
    requires 8 < e && e + 2 == |s| && s[..8] == RatingPrefix && s[e..] == RatingSuffix
    requires IsDecimalLiteral(s[8..e])
    ensures RatingField(Some(s)) == Ok(Num(ParseDecimal(s[8..e]).value))
  {
    assert s[e] == s[e..][0];
    RunEndsAt(s, 8, e);
    assert s[0..8] == RatingPrefix;
    assert s[e..e + 2] == RatingSuffix;
    assert RatingAt(s, 0);
    assert FirstRatingAt(s, 0);
    RatingCaptureAt(s, 0);
  }

  lemma DigitValues()
    ensures DigitsToNat("45") == 45 && DigitsToNat("40") == 40 && DigitsToNat("48") == 48
    ensures DigitsToNat("2550") == 2550 && DigitsToNat("7500") == 7500 && DigitsToNat("4999") == 4999
  {
    assert "45"[..1] == "4" && "40"[..1] == "4" && "48"[..1] == "4";
    assert "4"[..0] == [];
    assert "2550"[..3] == "255" && "255"[..2] == "25" && "25"[..1] == "2" && "2"[..0] == [];
    assert "7500"[..3] == "750" && "750"[..2] == "75" && "75"[..1] == "7" && "7"[..0] == [];
    assert "4999"[..3] == "499" && "499"[..2] == "49" && "49"[..1] == "4";
  }

  // ---------------------------------------------------------------------------
  // The embedded document

  /** An element holding one piece of text, such as `<h2 class="product-name">...</h2>`. */
  function Leaf(tag: string, cls: string, text: string): (n: Node) {
    Element(tag, [cls], [TextNode(text)])
  }

  /** One `<div class="product-item">` of the document with its four field elements. */
  function Item(name: string, price: string, rating: string, availability: string): (n: Node) {
    Element("div", ["product-item"], [
      Leaf("h2", "product-name", name),
      Leaf("p", "product-price", price),
      Leaf("div", "product-rating", rating),
      Leaf("span", "availability", availability)])
  }

  function Laptop(): (n: Node) { Item("Laptop Pro X", "Price: $1200.99", "Rating: 4.5/5", "In Stock") }
  function Mouse(): (n: Node) { Item("Wireless Mouse Z", "Price: $25.50", "Rating: 4.0/5", "Low Stock") }
  function Keyboard(): (n: Node) { Item("Ergonomic Keyboard", "Price: $75.00", "Rating: 4.8/5", "In Stock") }
  function Hub(): (n: Node) { Item("USB-C Hub Elite", "Price: $49.99", "Rating: Not Rated", "Out of Stock") }

  function Header(): (n: Node) {
    Element("div", ["header"], [
      Element("h1", [], [TextNode("Welcome to Our Store!")]),
      Element("p", [], [TextNode("Discover our amazing products.")])])
  }

  function Footer(): (n: Node) {
    Element("div", ["footer"], [Element("p", [], [TextNode("\U{00A9} 2025 Our Store. All rights reserved.")])])
  }

  function Head(): (n: Node) {
    Element("head", [], [Element("meta", [], []), Element("title", [], [TextNode("Our Products")])])
  }

  /** `<div class="product-list">` holding the given products. */
  function ProductList(items: seq<Node>): (n: Node) {
    Element("div", ["product-list"], items)
  }

  /** The page of the document with the given products in its product list. */
  function Page(items: seq<Node>): (n: Node) {
    Element("[document]", [], [
      Element("html", [], [
        Head(),
        Element("body", [], [Header(), ProductList(items), Footer()])])])
  }

  /** The parsed document: the parser's root holds `<html>`. Text that is only
      whitespace is left out, inside products and between them: it matches no
      selector and never sits under a field element, so no `find` and no
      `get_text` of a field sees it. Elements without a class attribute have an
      empty class list. */
  function Document(): (n: Node) {
    Page([Laptop(), Mouse(), Keyboard(), Hub()])
  }

  // ---------------------------------------------------------------------------
  // Searching the embedded document

  /** What one child adds to its parent's `find_all`: itself when it matches, then
      its own matches. */
  function Own(n: Node, sel: Selector): (owned: seq<Node>) {
    (if Matches(n, sel) then [n] else []) + FindAll(n, sel)
  }

  /** A parent's `find_all` is the first child's contribution, then the rest's. */
  lemma FindAllInCons(n: Node, ns: seq<Node>, sel: Selector)
    ensures FindAllIn([n] + ns, sel) == Own(n, sel) + FindAllIn(ns, sel)
  {
    assert ([n] + ns)[1..] == ns;
  }

  lemma FindAllInSingle(n: Node, sel: Selector)
    ensures FindAllIn([n], sel) == Own(n, sel)
  {
    assert [n][1..] == [];
  }

  lemma {:induction false} FindAllInTexts(ns: seq<Node>, sel: Selector)
    requires forall k :: 0 <= k < |ns| ==> ns[k].TextNode?
    ensures FindAllIn(ns, sel) == []
  {
    if ns != [] {
      FindAllInTexts(ns[1..], sel);
    }
  }

  /** Below elements whose own descendants hold no match, `find_all` keeps exactly the
      matching elements themselves. */
  lemma {:induction false} FindAllInShallow(ns: seq<Node>, sel: Selector)
    requires forall k :: 0 <= k < |ns| ==> FindAll(ns[k], sel) == []
    ensures FindAllIn(ns, sel) == Select(ns, sel)
  {
    if ns != [] {
      FindAllInShallow(ns[1..], sel);
    }
  }

  lemma {:induction false} SelectAll(ns: seq<Node>, sel: Selector)
    requires forall k :: 0 <= k < |ns| ==> Matches(ns[k], sel)
    ensures Select(ns, sel) == ns
  {
    if ns != [] {
      SelectAll(ns[1..], sel);
    }
  }

  /** A leaf adds itself when it matches and nothing else. */
  lemma LeafOwn(tag: string, cls: string, text: string, sel: Selector)
    ensures FindAll(Leaf(tag, cls, text), sel) == []
    ensures Own(Leaf(tag, cls, text), sel) == if tag == sel.tag && cls == sel.cls then [Leaf(tag, cls, text)] else []
  {
    FindAllInTexts([TextNode(text)], sel);
  }

  /** Children that add nothing add nothing together. */
  lemma {:induction false} NothingOwned(ns: seq<Node>, sel: Selector)
    requires forall k :: 0 <= k < |ns| ==> Own(ns[k], sel) == []
    ensures FindAllIn(ns, sel) == []
  {
    if ns != [] {
      NothingOwned(ns[1..], sel);
    }
  }

  /** A product item is a product element with no product element below it. */
  lemma ItemIsProduct(name: string, price: string, rating: string, availability: string)
    ensures Matches(Item(name, price, rating, availability), ProductSel)
    ensures FindAll(Item(name, price, rating, availability), ProductSel) == []
  {
    LeafOwn("h2", "product-name", name, ProductSel);
    LeafOwn("p", "product-price", price, ProductSel);
    LeafOwn("div", "product-rating", rating, ProductSel);
    LeafOwn("span", "availability", availability, ProductSel);
    assert "product-rating" != "product-item";
    NothingOwned(Item(name, price, rating, availability).children, ProductSel);
  }

  lemma HeaderHoldsNoItem()
    ensures Own(Header(), ProductSel) == []
  {
  }

  lemma FooterHoldsNoItem()
    ensures Own(Footer(), ProductSel) == []
  {
  }

  lemma HeadHoldsNoItem()
    ensures Own(Head(), ProductSel) == []
  {
  }

  /** A product list adds exactly its products, when none holds another product. */
  lemma ProductListOwn(items: seq<Node>)
    requires forall k :: 0 <= k < |items| ==> Matches(items[k], ProductSel) && FindAll(items[k], ProductSel) == []
    ensures Own(ProductList(items), ProductSel) == items
  {
    FindAllInShallow(items, ProductSel);
    SelectAll(items, ProductSel);
    assert "product-item"[8] != "product-list"[8];
  }

  /** An element that does not match and whose first and last of three children add
      nothing finds what the middle child adds. */
  lemma MiddleOwn(tag: string, a: Node, b: Node, c: Node, sel: Selector)
    requires tag != sel.tag
    requires Own(a, sel) == [] && Own(c, sel) == []
    ensures Own(Element(tag, [], [a, b, c]), sel) == Own(b, sel)
  {
    FindAllInCons(a, [b, c], sel);
    FindAllInCons(b, [c], sel);
    FindAllInSingle(c, sel);
    assert [a, b, c] == [a] + [b, c];
    assert [b, c] == [b] + [c];
    assert Own(b, sel) + [] == Own(b, sel);
  }

  /** An element that does not match and whose first of two children adds nothing
      finds what the second child adds. */
  lemma SecondOwn(tag: string, a: Node, b: Node, sel: Selector)
    requires tag != sel.tag
    requires Own(a, sel) == []
    ensures Own(Element(tag, [], [a, b]), sel) == Own(b, sel)
  {
    FindAllInCons(a, [b], sel);
    FindAllInSingle(b, sel);
    assert [a, b] == [a] + [b];
  }

  /** The page's product elements are the products of its list, in order. */
  lemma PageHoldsItems(items: seq<Node>)
    requires forall k :: 0 <= k < |items| ==> Matches(items[k], ProductSel) && FindAll(items[k], ProductSel) == []
    ensures FindAll(Page(items), ProductSel) == items
  {
    var list := ProductList(items);
    var body := Element("body", [], [Header(), list, Footer()]);
    var html := Element("html", [], [Head(), body]);
    ProductListOwn(items);
    HeaderHoldsNoItem();
    FooterHoldsNoItem();
    HeadHoldsNoItem();
    MiddleOwn("body", Header(), list, Footer(), ProductSel);
    SecondOwn("html", Head(), body, ProductSel);
    FindAllInSingle(html, ProductSel);
  }

  /** A page with four products, none holding another, yields those four. */
  lemma PageOfFour(a: Node, b: Node, c: Node, d: Node)
    requires Matches(a, ProductSel) && FindAll(a, ProductSel) == []
    requires Matches(b, ProductSel) && FindAll(b, ProductSel) == []
    requires Matches(c, ProductSel) && FindAll(c, ProductSel) == []
    requires Matches(d, ProductSel) && FindAll(d, ProductSel) == []
    ensures FindAll(Page([a, b, c, d]), ProductSel) == [a, b, c, d]
  {
    PageHoldsItems([a, b, c, d]);
  }

  /** The document holds exactly the four products, in document order
      (webscraping.py:27-53). */
  lemma FixtureItems()
    ensures FindAll(Document(), ProductSel) == [Laptop(), Mouse(), Keyboard(), Hub()]
  {
    ItemIsProduct("Laptop Pro X", "Price: $1200.99", "Rating: 4.5/5", "In Stock");
    ItemIsProduct("Wireless Mouse Z", "Price: $25.50", "Rating: 4.0/5", "Low Stock");
    ItemIsProduct("Ergonomic Keyboard", "Price: $75.00", "Rating: 4.8/5", "In Stock");
    ItemIsProduct("USB-C Hub Elite", "Price: $49.99", "Rating: Not Rated", "Out of Stock");
    PageOfFour(Laptop(), Mouse(), Keyboard(), Hub());
  }

  // ---------------------------------------------------------------------------
  // The records of the embedded document

  /** Each field element of a product item is found, and its text, already free of
      surrounding whitespace, comes back unchanged. */
  lemma ItemTags(name: string, price: string, rating: string, availability: string)
    requires NoSurroundingSpace(name) && NoSurroundingSpace(price)
    requires NoSurroundingSpace(rating) && NoSurroundingSpace(availability)
    ensures LookupTags(Item(name, price, rating, availability))
         == TagTexts(Some(name), Some(price), Some(rating), Some(availability))
  {
    var n, p, r, a := Leaf("h2", "product-name", name), Leaf("p", "product-price", price),
                      Leaf("div", "product-rating", rating), Leaf("span", "availability", availability);
    var item := Item(name, price, rating, availability);
    FindIsFirstOfFindAll(item, NameSel);
    FindIsFirstOfFindAll(item, PriceSel);
    FindIsFirstOfFindAll(item, RatingSel);
    FindIsFirstOfFindAll(item, AvailabilitySel);
    FieldFound(name, price, rating, availability);
    SingleTextStripped("h2", ["product-name"], name);
    SingleTextStripped("p", ["product-price"], price);
    SingleTextStripped("div", ["product-rating"], rating);
    SingleTextStripped("span", ["availability"], availability);
    StripClean(name);
    StripClean(price);
    StripClean(rating);
    StripClean(availability);
  }

  /** Below a product item, `find_all` keeps the item's own children that match. */
  lemma ItemFindAll(name: string, price: string, rating: string, availability: string, sel: Selector)
    ensures var e := Item(name, price, rating, availability);
            FindAll(e, sel) == Select(e.children, sel)
  {
    LeafOwn("h2", "product-name", name, sel);
    LeafOwn("p", "product-price", price, sel);
    LeafOwn("div", "product-rating", rating, sel);
    LeafOwn("span", "availability", availability, sel);
    FindAllInShallow(Item(name, price, rating, availability).children, sel);
  }

  /** The first node selected is the first node that matches. */
  lemma {:induction false} SelectFirst(ns: seq<Node>, sel: Selector, k: nat)
    requires k < |ns| && Matches(ns[k], sel)
    requires forall j :: 0 <= j < k ==> !Matches(ns[j], sel)
    ensures First(Select(ns, sel)) == Some(ns[k])
  {
    if k > 0 {
      SelectFirst(ns[1..], sel, k - 1);
    }
  }

  /** In an item, `find_all` for each field selector gives that field's element first. */
  lemma FieldFound(name: string, price: string, rating: string, availability: string)
    ensures var e := Item(name, price, rating, availability);
            && First(FindAll(e, NameSel)) == Some(e.children[0])
            && First(FindAll(e, PriceSel)) == Some(e.children[1])
            && First(FindAll(e, RatingSel)) == Some(e.children[2])
            && First(FindAll(e, AvailabilitySel)) == Some(e.children[3])
  {
    var e := Item(name, price, rating, availability);
    var c := e.children;
    ItemFindAll(name, price, rating, availability, NameSel);
    ItemFindAll(name, price, rating, availability, PriceSel);
    ItemFindAll(name, price, rating, availability, RatingSel);
    ItemFindAll(name, price, rating, availability, AvailabilitySel);
    SelectFirst(c, NameSel, 0);
    SelectFirst(c, PriceSel, 1);
    SelectFirst(c, RatingSel, 2);
    SelectFirst(c, AvailabilitySel, 3);
  }

  /** The laptop (webscraping.py:27-32): both numbers parse. */
  lemma LaptopRecord()
    ensures ProductRecord(Laptop())
         == Ok(Product(Str("Laptop Pro X"), Num(Decimal(120099, 2)), Num(Decimal(45, 1)), Str("In Stock")))
  {
    ItemTags("Laptop Pro X", "Price: $1200.99", "Rating: 4.5/5", "In Stock");
    PriceOfLaptop();
    RatingNumeric();
  }

  lemma MousePrice()
    ensures PriceField(Some("Price: $25.50")) == Ok(Num(Decimal(2550, 2)))
  {
    DigitValues();
    var p := "Price: $25.50";
    assert "25" + "." + "50" == p[8..];
    assert "25" + "50" == "2550";
    ParseDotted("25", "50", Decimal(2550, 2));
    DollarPrice(p);
  }

  lemma MouseRating()
    ensures RatingField(Some("Rating: 4.0/5")) == Ok(Num(Decimal(40, 1)))
  {
    DigitValues();
    var r := "Rating: 4.0/5";
    assert "4" + "." + "0" == r[8..11];
    assert "4" + "0" == "40";
    ParseDotted("4", "0", Decimal(40, 1));
    RatingOutOfFive(r, 11);
  }

  /** The mouse: "$25.50" keeps its trailing zero as scale 2. */
  lemma MouseRecord()
    ensures ProductRecord(Mouse())
         == Ok(Product(Str("Wireless Mouse Z"), Num(Decimal(2550, 2)), Num(Decimal(40, 1)), Str("Low Stock")))
  {
    ItemTags("Wireless Mouse Z", "Price: $25.50", "Rating: 4.0/5", "Low Stock");
    MousePrice();
    MouseRating();
  }

  lemma KeyboardPrice()
    ensures PriceField(Some("Price: $75.00")) == Ok(Num(Decimal(7500, 2)))
  {
    DigitValues();
    var p := "Price: $75.00";
    assert "75" + "." + "00" == p[8..];
    assert "75" + "00" == "7500";
    ParseDotted("75", "00", Decimal(7500, 2));
    DollarPrice(p);
  }

  lemma KeyboardRating()
    ensures RatingField(Some("Rating: 4.8/5")) == Ok(Num(Decimal(48, 1)))
  {
    DigitValues();
    var r := "Rating: 4.8/5";
    assert "4" + "." + "8" == r[8..11];
    assert "4" + "8" == "48";
    ParseDotted("4", "8", Decimal(48, 1));
    RatingOutOfFive(r, 11);
  }

  lemma KeyboardRecord()
    ensures ProductRecord(Keyboard())
         == Ok(Product(Str("Ergonomic Keyboard"), Num(Decimal(7500, 2)), Num(Decimal(48, 1)), Str("In Stock")))
  {
    ItemTags("Ergonomic Keyboard", "Price: $75.00", "Rating: 4.8/5", "In Stock");
    KeyboardPrice();
    KeyboardRating();
  }

  lemma HubPrice()
    ensures PriceField(Some("Price: $49.99")) == Ok(Num(Decimal(4999, 2)))
  {
    DigitValues();
    var p := "Price: $49.99";
    assert "49" + "." + "99" == p[8..];
    assert "49" + "99" == "4999";
    ParseDotted("49", "99", Decimal(4999, 2));
    DollarPrice(p);
  }

  /** The hub: a numeric price and the rating 'Not Rated'. */
  lemma HubRecord()
    ensures ProductRecord(Hub())
         == Ok(Product(Str("USB-C Hub Elite"), Num(Decimal(4999, 2)), NotRated, Str("Out of Stock")))
  {
    ItemTags("USB-C Hub Elite", "Price: $49.99", "Rating: Not Rated", "Out of Stock");
    HubPrice();
    RatingNotRated();
  }

  /** The records of the embedded document, in document order. */
  function FixtureRecords(): (ps: seq<Product>) {
    [ Product(Str("Laptop Pro X"), Num(Decimal(120099, 2)), Num(Decimal(45, 1)), Str("In Stock")),
      Product(Str("Wireless Mouse Z"), Num(Decimal(2550, 2)), Num(Decimal(40, 1)), Str("Low Stock")),
      Product(Str("Ergonomic Keyboard"), Num(Decimal(7500, 2)), Num(Decimal(48, 1)), Str("In Stock")),
      Product(Str("USB-C Hub Elite"), Num(Decimal(4999, 2)), NotRated, Str("Out of Stock")) ]
  }

  /** Four elements whose records all build give those records, in order. */
  lemma RecordsOfFour(a: Node, b: Node, c: Node, d: Node, pa: Product, pb: Product, pc: Product, pd: Product)
    requires ProductRecord(a) == Ok(pa) && ProductRecord(b) == Ok(pb)
    requires ProductRecord(c) == Ok(pc) && ProductRecord(d) == Ok(pd)
    ensures Records([a, b, c, d]) == Ok([pa, pb, pc, pd])
  {
    RecordsAllOk([a, b, c, d], [pa, pb, pc, pd]);
  }

  /** The four products' records, built in order. */
  lemma FixtureRecordsBuilt()
    ensures Records([Laptop(), Mouse(), Keyboard(), Hub()]) == Ok(FixtureRecords())
  {
    LaptopRecord();
    MouseRecord();
    KeyboardRecord();
    HubRecord();
    var want := FixtureRecords();
    RecordsOfFour(Laptop(), Mouse(), Keyboard(), Hub(), want[0], want[1], want[2], want[3]);
    assert [want[0], want[1], want[2], want[3]] == want;
  }

  /** Running the extraction on the embedded document gives its four records. */
  method ScrapeFixture() returns (r: Result<seq<Product>, ConversionError>)
    ensures r == Ok(FixtureRecords())
  {
    FixtureItems();
    FixtureRecordsBuilt();
    r := Scrape(Document());
  }
}
